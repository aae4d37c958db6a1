/**
 Why reference counting never removes a cell that is still in use, although releasing a root
 stops at the first shared cell and counts therefore only bound the number of users from above.
 */
module CellSafety {
  import opened Wrappers
  import opened Bytes
  import opened Graphs
  import opened Cells
  import opened ShardIdents
  import opened CellCounts

  /** Who keeps a root alive: a client that retained it, a shard whose state it is, or a block
      that is being committed. */
  datatype Holder = Client(id: nat) | Shard(shard: ShardIdent) | Incoming

  type Holders<Id> = map<Holder, Id>

  /** The holders whose root reaches c. */
  ghost function Holding<Id(!new)>(files: Files<Id>, holders: Holders<Id>, c: Id): set<Holder> {
    set o | o in holders && Reaches(RefGraph(files), holders[o], c)
  }

  /** Everything below a held root is stored, with a count that is no less than the number of
      holders above it. */
  ghost predicate Safe<Id(!new)>(hash: Cell<Id> -> Id, files: Files<Id>, holders: Holders<Id>) {
    forall c :: Holding(files, holders, c) != {} ==>
      Holds(hash, files, c) && Count(files, c) >= |Holding(files, holders, c)|
  }

  // ---------- What the operations do to the cells ----------

  /** Retaining root: the cells below it are all there, and each is counted once more. */
  ghost predicate Retained<Id(!new)>(hash: Cell<Id> -> Id, files: Files<Id>, root: Id, s: set<Id>, files': Files<Id>) {
    && IsClosure(WalkGraph(files, true), root, s)
    && (forall c :: c in s ==> !Blocked(hash, files, true, c))
    && files' == Shifted(files, s, true)
  }

  /** Releasing root: s is what the walk reaches; cells in it that were counted once are gone. */
  ghost predicate Released<Id(!new)>(hash: Cell<Id> -> Id, files: Files<Id>, root: Id, s: set<Id>, files': Files<Id>) {
    && IsClosure(WalkGraph(files, false), root, s)
    && (forall c :: c in s ==> !Blocked(hash, files, false, c))
    && files' == Shifted(files, s, false) - Dropped(files, s)
  }

  /** Storing cells: those not yet there are added with a count of zero. */
  ghost predicate Stored<Id(!new)>(hash: Cell<Id> -> Id, files: Files<Id>, files': Files<Id>) {
    && files.Keys <= files'.Keys
    && (forall k :: k in files ==> files'[k] == files[k])
    && (forall k :: k in files' && k !in files ==>
         k.CellKey? && files'[k].CellRecord? && files'[k].count == 0 && hash(files'[k].cell) == k.hash)
  }

  /** The two states hold the same cell records. */
  ghost predicate SameCells<Id(!new)>(files: Files<Id>, files': Files<Id>) {
    forall k: Key<Id> :: k.CellKey? ==> (k in files <==> k in files') && (k in files ==> files[k] == files'[k])
  }

  // ---------- Each operation keeps the cells safe ----------

  lemma SameCellsSameGraph<Id(!new)>(files: Files<Id>, files': Files<Id>)
    requires SameCells(files, files')
    ensures RefGraph(files) == RefGraph(files') && CellIds(files) == CellIds(files')
  {
    forall h
      ensures h in CellIds(files) <==> h in CellIds(files')
    {
      assert CellKey(h) in files <==> CellKey(h) in files';
    }
  }

  lemma SameCellsKeepSafe<Id(!new)>(hash: Cell<Id> -> Id, files: Files<Id>, files': Files<Id>, holders: Holders<Id>)
    requires Safe(hash, files, holders) && SameCells(files, files')
    ensures Safe(hash, files', holders)
  {
    SameCellsSameGraph(files, files');
    forall c | Holding(files', holders, c) != {}
      ensures Holds(hash, files', c) && Count(files', c) >= |Holding(files', holders, c)|
    {
      assert Holding(files', holders, c) == Holding(files, holders, c);
    }
  }

  lemma UpwardWalkGraph<Id(!new)>(files: Files<Id>)
    ensures WalkGraph(files, true) == RefGraph(files)
  {
  }

  lemma ShiftKeepsGraph<Id(!new)>(files: Files<Id>, s: set<Id>, up: bool)
    ensures CellIds(Shifted(files, s, up)) == CellIds(files)
    ensures RefGraph(Shifted(files, s, up)) == RefGraph(files)
  {
    var files' := Shifted(files, s, up);
    forall h
      ensures h in CellIds(files) <==> h in CellIds(files')
    {
      if h in CellIds(files) {
        assert CellKey(h) in files' && files'[CellKey(h)].CellRecord?;
      }
    }
  }

  lemma RetainKeepsSafe<Id(!new)>(hash: Cell<Id> -> Id, files: Files<Id>, holders: Holders<Id>, o: Holder, root: Id,
    s: set<Id>, files': Files<Id>)
    requires Safe(hash, files, holders) && o !in holders && Retained(hash, files, root, s, files')
    ensures Safe(hash, files', holders[o := root])
  {
    UpwardWalkGraph(files);
    ShiftKeepsGraph(files, s, true);
    forall c | Holding(files', holders[o := root], c) != {}
      ensures Holds(hash, files', c) && Count(files', c) >= |Holding(files', holders[o := root], c)|
    {
      var old_ := Holding(files, holders, c);
      if c in s {
        assert Holding(files', holders[o := root], c) == old_ + {o};
      } else {
        assert Holding(files', holders[o := root], c) == old_;
      }
      assert Holds(hash, files, c);
    }
  }

  /** A walk downwards from a held root meets only cells that are stored and counted. */
  lemma ReleaseIsNotBlocked<Id(!new)>(hash: Cell<Id> -> Id, files: Files<Id>, holders: Holders<Id>, o: Holder, c: Id)
    requires Safe(hash, files, holders) && o in holders
    requires Reaches(WalkGraph(files, false), holders[o], c)
    ensures !Blocked(hash, files, false, c) && o in Holding(files, holders, c)
  {
    ReachesInLarger(WalkGraph(files, false), RefGraph(files), holders[o], c);
    assert o in Holding(files, holders, c);
  }

  lemma ReleaseKeepsSafe<Id(!new)>(hash: Cell<Id> -> Id, files: Files<Id>, holders: Holders<Id>, o: Holder, root: Id,
    s: set<Id>, files': Files<Id>)
    requires Safe(hash, files, holders) && o in holders && holders[o] == root
    requires Released(hash, files, root, s, files')
    ensures Safe(hash, files', holders - {o})
  {
    forall c | Holding(files', holders - {o}, c) != {}
      ensures Holds(hash, files', c) && Count(files', c) >= |Holding(files', holders - {o}, c)|
    {
      forall other | other in Holding(files', holders - {o}, c)
        ensures other in Holding(files, holders, c)
      {
        ReachesInLarger(RefGraph(files'), RefGraph(files), holders[other], c);
      }
      var above := Holding(files, holders, c);
      var rest := Holding(files', holders - {o}, c);
      assert rest <= above - {o};
      SubsetSize(rest, above - {o});
      assert |rest| > 0;
      if c in s {
        ReleaseIsNotBlocked(hash, files, holders, o, c);
        assert |above - {o}| == |above| - 1;
      }
    }
  }

  lemma {:induction false} SubsetSize<T>(a: set<T>, b: set<T>)
    requires a <= b
    ensures |a| <= |b|
  {
    assert b == a + (b - a);
  }

  /** Storing more cells gives no held root new descendants. */
  lemma StoreKeepsSafe<Id(!new)>(hash: Cell<Id> -> Id, files: Files<Id>, holders: Holders<Id>, files': Files<Id>)
    requires Safe(hash, files, holders) && Stored(hash, files, files')
    ensures Safe(hash, files', holders)
  {
    forall c | Holding(files', holders, c) != {}
      ensures Holds(hash, files', c) && Count(files', c) >= |Holding(files', holders, c)|
    {
      forall o | o in Holding(files', holders, c)
        ensures o in Holding(files, holders, c)
      {
        HeldCellsStay(hash, files, holders, o, files', c);
      }
      SubsetSize(Holding(files', holders, c), Holding(files, holders, c));
    }
  }

  lemma HeldCellsStay<Id(!new)>(hash: Cell<Id> -> Id, files: Files<Id>, holders: Holders<Id>, o: Holder,
    files': Files<Id>, c: Id)
    requires Safe(hash, files, holders) && Stored(hash, files, files') && o in holders
    requires Reaches(RefGraph(files'), holders[o], c)
    ensures Reaches(RefGraph(files), holders[o], c)
  {
    var root := holders[o];
    var below := set h | h in CellIds(files) && Reaches(RefGraph(files), root, h);
    forall h | Reaches(RefGraph(files), root, h)
      ensures h in below
    {
      assert o in Holding(files, holders, h);
    }
    ReachesSelf(RefGraph(files), root);
    forall v, w | v in below && Edge(RefGraph(files'), v, w)
      ensures w in below
    {
      assert Edge(RefGraph(files), v, w);
      ReachesStep(RefGraph(files), root, v, w);
    }
    ClosedKeepsReachable(RefGraph(files'), below, root);
  }

  /** A holder can hand its root over to another. */
  lemma HandOver<Id(!new)>(hash: Cell<Id> -> Id, files: Files<Id>, holders: Holders<Id>, from: Holder, to: Holder)
    requires Safe(hash, files, holders) && from in holders && to !in holders
    ensures Safe(hash, files, (holders - {from})[to := holders[from]])
  {
    var holders' := (holders - {from})[to := holders[from]];
    forall c | Holding(files, holders', c) != {}
      ensures Holds(hash, files, c) && Count(files, c) >= |Holding(files, holders', c)|
    {
      var a, b := Holding(files, holders, c), Holding(files, holders', c);
      if from in a {
        assert b == a - {from} + {to};
      } else {
        assert b == a;
      }
    }
  }

  // ---------- Committing a block ----------

  /** The stages of a block commit, as states of the cells: new cells stored, other files written,
      the new root retained (cells up), and the old one released (cells down). */
  datatype Stages<!Id> = Stages(stored: Files<Id>, written: Files<Id>, up: set<Id>, retained: Files<Id>,
    down: set<Id>, released: Files<Id>)

  ghost predicate Committed<Id(!new)>(hash: Cell<Id> -> Id, files: Files<Id>, root: Id, previous: Option<Id>,
    st: Stages<Id>, files': Files<Id>)
  {
    && Stored(hash, files, st.stored)
    && SameCells(st.stored, st.written)
    && Retained(hash, st.written, root, st.up, st.retained)
    && (if previous.Some? then Released(hash, st.retained, previous.value, st.down, st.released)
        else st.released == st.retained)
    && SameCells(st.released, files')
  }

  function RootOf<Id>(holders: Holders<Id>, o: Holder): Option<Id> {
    if o in holders then Some(holders[o]) else None
  }

  lemma CommitKeepsSafe<Id(!new)>(hash: Cell<Id> -> Id, files: Files<Id>, holders: Holders<Id>, shard: ShardIdent,
    root: Id, st: Stages<Id>, files': Files<Id>)
    requires Safe(hash, files, holders) && Incoming !in holders
    requires Committed(hash, files, root, RootOf(holders, Shard(shard)), st, files')
    ensures Safe(hash, files', holders[Shard(shard) := root])
  {
    StoreKeepsSafe(hash, files, holders, st.stored);
    SameCellsKeepSafe(hash, st.stored, st.written, holders);
    RetainKeepsSafe(hash, st.written, holders, Incoming, root, st.up, st.retained);
    SwapRoots(hash, st.retained, holders, Shard(shard), root, st.down, st.released);
    SameCellsKeepSafe(hash, st.released, files', holders[Shard(shard) := root]);
  }

  /** With the new root held as Incoming, the old root of a shard makes way for it. */
  lemma SwapRoots<Id(!new)>(hash: Cell<Id> -> Id, files: Files<Id>, holders: Holders<Id>, o: Holder, root: Id,
    s: set<Id>, files': Files<Id>)
    requires Safe(hash, files, holders[Incoming := root]) && Incoming !in holders && o != Incoming
    requires if o in holders then Released(hash, files, holders[o], s, files') else files' == files
    ensures Safe(hash, files', holders[o := root])
  {
    var both := holders[Incoming := root];
    var rest := both - {o};
    if o in holders {
      ReleaseKeepsSafe(hash, files, both, o, holders[o], s, files');
    } else {
      assert rest == both;
    }
    HandOver(hash, files', rest, Incoming, o);
    assert (rest - {Incoming})[o := root] == holders[o := root];
  }

  // ---------- What the counts leave behind ----------

  lemma DeadEnd<Id(!new)>(g: Graph<Id>, a: Id)
    requires forall w :: !Edge(g, a, w)
    ensures forall s :: IsClosure(g, a, s) <==> s == {a}
  {
    ReachesSelf(g, a);
    ClosedReachableIsClosure(g, a, {a});
  }

  lemma RootIsRetained<Id(!new)>(hash: Cell<Id> -> Id, files: Files<Id>, root: Id, s: set<Id>, retained: Files<Id>)
    requires Retained(hash, files, root, s, retained)
    ensures root in s && root in CellIds(files) && root in CellIds(retained)
    ensures forall c :: c in s ==> c in CellIds(files)
    ensures Count(retained, root) == Count(files, root) + 1
  {
    ReachesSelf(WalkGraph(files, true), root);
    assert Holds(hash, files, root);
    ShiftKeepsGraph(files, s, true);
    forall c | c in s
      ensures c in CellIds(files)
    {
      assert Holds(hash, files, c);
    }
  }

  /** A root that stays counted is all that the release reaches. */
  lemma SharedRootIsReleased<Id(!new)>(hash: Cell<Id> -> Id, retained: Files<Id>, root: Id, t: set<Id>,
      files': Files<Id>)
    requires Released(hash, retained, root, t, files') && root in CellIds(retained) && Count(retained, root) > 1
    ensures t == {root} && files' == Shifted(retained, {root}, false)
  {
    DeadEnd(WalkGraph(retained, false), root);
    assert Dropped(retained, {root}) == {};
  }

  lemma UpAndDownOne<Id(!new)>(files: Files<Id>, root: Id, s: set<Id>)
    requires root in s && root in CellIds(files) && Count(files, root) > 0
    ensures Shifted(Shifted(files, s, true), {root}, false) == Shifted(files, s - {root}, true)
  {
  }

  lemma ShiftedIsSame<Id(!new)>(files: Files<Id>, s: set<Id>)
    requires forall c :: c in s ==> c in CellIds(files)
    ensures Shifted(files, s, true) == files <==> s == {}
  {
    if s != {} {
      var c :| c in s;
      assert CellKey(c) in files && Shifted(files, s, true)[CellKey(c)] != files[CellKey(c)];
    }
  }

  lemma LastCountIsDropped<Id(!new)>(hash: Cell<Id> -> Id, retained: Files<Id>, root: Id, t: set<Id>, files': Files<Id>)
    requires Released(hash, retained, root, t, files') && root in CellIds(retained) && Count(retained, root) == 1
    ensures CellKey(root) !in files'
  {
    ReachesSelf(WalkGraph(retained, false), root);
    assert CellKey(root) in Dropped(retained, t);
  }

  /**
   What a release undoes of the retain before it.  If the root was counted before, only its own count
   is taken back, and everything else below it stays counted once too often; if not, the root is gone.
   The files are what they were exactly when the root was counted and has nothing but itself below.
   */
  lemma ReleaseUndoesRetain<Id(!new)>(hash: Cell<Id> -> Id, files: Files<Id>, root: Id, s: set<Id>, retained: Files<Id>,
    t: set<Id>, files': Files<Id>)
    requires Retained(hash, files, root, s, retained) && Released(hash, retained, root, t, files')
    ensures root in CellIds(files)
    ensures Count(files, root) > 0 ==> files' == Shifted(files, s - {root}, true)
    ensures Count(files, root) == 0 ==> CellKey(root) !in files'
    ensures files' == files <==> Count(files, root) > 0 && s == {root}
  {
    RootIsRetained(hash, files, root, s, retained);
    hide Shifted, Dropped, WalkGraph;
    if Count(files, root) > 0 {
      SharedRootIsReleased(hash, retained, root, t, files');
      UpAndDownOne(files, root, s);
      ShiftedIsSame(files, s - {root});
    } else {
      LastCountIsDropped(hash, retained, root, t, files');
    }
  }

  /** The references that a commit follows downwards: those of cells counted once and not below the new root. */
  ghost function LooseGraph<Id(!new)>(files: Files<Id>, up: set<Id>): Graph<Id> {
    map h | h in CellIds(files) :: if Count(files, h) == 1 && h !in up then files[CellKey(h)].cell.refs else []
  }

  /** A commit makes the cell superfluous: it is counted once, on behalf of the old root alone. */
  ghost predicate Superseded<Id(!new)>(files: Files<Id>, up: set<Id>, previous: Option<Id>, h: Id) {
    && h in CellIds(files) && Count(files, h) == 1 && h !in up
    && previous.Some? && Reaches(LooseGraph(files, up), previous.value, h)
  }

  lemma CommitStages<Id(!new)>(hash: Cell<Id> -> Id, files: Files<Id>, root: Id, previous: Option<Id>, st: Stages<Id>,
      files': Files<Id>)
    requires Committed(hash, files, root, previous, st, files')
    ensures CellIds(files) <= CellIds(st.stored) == CellIds(st.written) == CellIds(st.retained)
    ensures RefGraph(st.retained) == RefGraph(st.stored)
    ensures forall h :: h in CellIds(files) ==>
      st.retained[CellKey(h)] == CellRecord(Count(files, h) + (if h in st.up then 1 else 0), files[CellKey(h)].cell)
  {
    SameCellsSameGraph(st.stored, st.written);
    ShiftKeepsGraph(st.written, st.up, true);
    forall h | h in CellIds(files)
      ensures st.retained[CellKey(h)] == CellRecord(Count(files, h) + (if h in st.up then 1 else 0),
        files[CellKey(h)].cell)
    {
      assert CellKey(h) in st.stored && st.stored[CellKey(h)] == files[CellKey(h)];
      assert CellKey(h) in st.written && st.written[CellKey(h)] == files[CellKey(h)];
    }
    forall h | h in CellIds(files)
      ensures h in CellIds(st.stored)
    {
      assert CellKey(h) in st.stored && st.stored[CellKey(h)] == files[CellKey(h)];
    }
  }

  /** What is below the old root was stored and counted before the commit. */
  lemma BelowOldRoot<Id(!new)>(hash: Cell<Id> -> Id, files: Files<Id>, holders: Holders<Id>, o: Holder, root: Id,
    st: Stages<Id>, files': Files<Id>, h: Id)
    requires Safe(hash, files, holders) && o in holders && Committed(hash, files, root, Some(holders[o]), st, files')
    requires Reaches(RefGraph(st.retained), holders[o], h)
    ensures h in CellIds(files) && Count(files, h) > 0
  {
    CommitStages(hash, files, root, Some(holders[o]), st, files');
    HeldCellsStay(hash, files, holders, o, st.stored, h);
    assert o in Holding(files, holders, h);
  }

  lemma LooseReferences<Id(!new)>(hash: Cell<Id> -> Id, files: Files<Id>, root: Id, previous: Id, st: Stages<Id>,
      files': Files<Id>)
    requires Committed(hash, files, root, Some(previous), st, files')
    ensures forall v, w :: v in CellIds(files) && Count(files, v) > 0 ==>
      (Edge(LooseGraph(files, st.up), v, w) <==> Edge(WalkGraph(st.retained, false), v, w))
    ensures forall v, w :: Edge(LooseGraph(files, st.up), v, w) ==> v in CellIds(files) && Count(files, v) > 0
  {
    CommitStages(hash, files, root, Some(previous), st, files');
    hide Committed;
  }

  /** The walk down from the old root follows the loose references. */
  lemma DownIsLoose<Id(!new)>(hash: Cell<Id> -> Id, files: Files<Id>, holders: Holders<Id>, o: Holder, root: Id,
    st: Stages<Id>, files': Files<Id>, h: Id)
    requires Safe(hash, files, holders) && o in holders && Committed(hash, files, root, Some(holders[o]), st, files')
    ensures h in st.down <==> Reaches(LooseGraph(files, st.up), holders[o], h)
  {
    var start := holders[o];
    var loose, walk := LooseGraph(files, st.up), WalkGraph(st.retained, false);
    LooseReferences(hash, files, root, start, st, files');
    assert IsClosure(walk, start, st.down);
    forall v | Reaches(walk, start, v)
      ensures v in CellIds(files) && Count(files, v) > 0
    {
      ReachesInLarger(walk, RefGraph(st.retained), start, v);
      BelowOldRoot(hash, files, holders, o, root, st, files', v);
    }
    hide Committed, Safe, LooseGraph, WalkGraph, CellIds, Count;
    if Reaches(loose, start, h) {
      ReachesInLarger(loose, walk, start, h);
    }
    var below := set v | v in st.down && Reaches(loose, start, v);
    ReachesSelf(loose, start);
    ReachesSelf(walk, start);
    forall v, w | v in below && Edge(walk, v, w)
      ensures w in below
    {
      ReachesStep(walk, start, v, w);
      ReachesStep(loose, start, v, w);
    }
    ClosedKeepsReachable(walk, below, start);
  }

  /** A commit leaves the cells that it found or was given, but for those that it made superfluous. */
  lemma CommitDropsSuperseded<Id(!new)>(hash: Cell<Id> -> Id, files: Files<Id>, holders: Holders<Id>, shard: ShardIdent,
    root: Id, st: Stages<Id>, files': Files<Id>, h: Id)
    requires Safe(hash, files, holders) && Committed(hash, files, root, RootOf(holders, Shard(shard)), st, files')
    ensures h in CellIds(files') <==>
      h in CellIds(st.stored) && !Superseded(files, st.up, RootOf(holders, Shard(shard)), h)
  {
    var previous := RootOf(holders, Shard(shard));
    CommitStages(hash, files, root, previous, st, files');
    SameCellsSameGraph(st.released, files');
    if previous.Some? {
      DownIsLoose(hash, files, holders, Shard(shard), root, st, files', h);
      ShiftKeepsGraph(st.retained, st.down, false);
      assert h in CellIds(st.released) <==> h in CellIds(st.retained) && CellKey(h) !in Dropped(st.retained, st.down);
      if h in st.down {
        ReachesInLarger(WalkGraph(st.retained, false), RefGraph(st.retained), previous.value, h);
        BelowOldRoot(hash, files, holders, Shard(shard), root, st, files', h);
      }
    }
  }

  // ---------- Whole runs ----------

  datatype Store<!Id> = Store(files: Files<Id>, holders: Holders<Id>)

  /** What a call does to the store: nothing when it fails, and otherwise what its method
      promises.  Each release matches a retain that is still held. */
  datatype Action<!Id> =
    | Fail
    | PutCells
    | Retain(client: nat, root: Id, s: set<Id>)
    | Release(client: nat, s: set<Id>)
    | CommitBlock(shard: ShardIdent, root: Id, stages: Stages<Id>)

  ghost predicate Next<Id(!new)>(hash: Cell<Id> -> Id, a: Store<Id>, action: Action<Id>, b: Store<Id>) {
    match action
    case Fail => b == a
    case PutCells => Stored(hash, a.files, b.files) && b.holders == a.holders
    case Retain(client, root, s) =>
      && Client(client) !in a.holders && Retained(hash, a.files, root, s, b.files)
      && b.holders == a.holders[Client(client) := root]
    case Release(client, s) =>
      && Client(client) in a.holders && Released(hash, a.files, a.holders[Client(client)], s, b.files)
      && b.holders == a.holders - {Client(client)}
    case CommitBlock(shard, root, st) =>
      && Committed(hash, a.files, root, RootOf(a.holders, Shard(shard)), st, b.files)
      && b.holders == a.holders[Shard(shard) := root]
  }

  ghost predicate IsRun<Id(!new)>(hash: Cell<Id> -> Id, stores: seq<Store<Id>>, actions: seq<Action<Id>>) {
    && |stores| == |actions| + 1
    && stores[0] == Store(map[], map[])
    && forall i :: 0 <= i < |actions| ==> Next(hash, stores[i], actions[i], stores[i + 1])
  }

  /** In every run, every cell below a held root is stored, with a count of at least the number
      of held roots above it. */
  lemma {:induction false} RunsKeepHeldCells<Id(!new)>(hash: Cell<Id> -> Id, stores: seq<Store<Id>>,
      actions: seq<Action<Id>>)
    requires IsRun(hash, stores, actions)
    ensures
      var last := stores[|actions|];
      Safe(hash, last.files, last.holders) && Incoming !in last.holders
    decreases |actions|
  {
    if actions != [] {
      var n := |actions| - 1;
      RunsKeepHeldCells(hash, stores[..n + 1], actions[..n]);
      var a, b := stores[n], stores[n + 1];
      match actions[n]
      case Fail =>
      case PutCells => StoreKeepsSafe(hash, a.files, a.holders, b.files);
      case Retain(client, root, s) => RetainKeepsSafe(hash, a.files, a.holders, Client(client), root, s, b.files);
      case Release(client, s) =>
        ReleaseKeepsSafe(hash, a.files, a.holders, Client(client), a.holders[Client(client)], s, b.files);
      case CommitBlock(shard, root, st) => CommitKeepsSafe(hash, a.files, a.holders, shard, root, st, b.files);
    }
  }

  /** ... and a release that matches an earlier retain never meets an absent or uncounted cell. */
  lemma MatchedReleaseSucceeds<Id(!new)>(hash: Cell<Id> -> Id, stores: seq<Store<Id>>, actions: seq<Action<Id>>,
      client: nat)
    requires IsRun(hash, stores, actions) && Client(client) in stores[|actions|].holders
    ensures
      var last := stores[|actions|];
      forall c :: Reaches(WalkGraph(last.files, false), last.holders[Client(client)], c) ==>
        !Blocked(hash, last.files, false, c)
  {
    RunsKeepHeldCells(hash, stores, actions);
    var last := stores[|actions|];
    forall c | Reaches(WalkGraph(last.files, false), last.holders[Client(client)], c)
      ensures !Blocked(hash, last.files, false, c)
    {
      ReleaseIsNotBlocked(hash, last.files, last.holders, Client(client), c);
    }
  }
}
