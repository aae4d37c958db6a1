/**
 Durable shard state (crates/protocol/onx-state-model/src/storage.rs): cells with reference
 counts, accounts, block headers and state roots, changed by journalled batches.
 */
module StateStorages {
  import opened Wrappers
  import opened Bytes
  import opened Graphs
  import opened Cells
  import opened Journals
  import opened BagsOfCells
  import opened ShardIdents
  import opened AccountStates
  import opened AccountTries
  import opened CellCounts
  import opened CellSafety

  datatype StorageError =
    | Corrupt(reason: Corruption)
    | RootMismatch(expected: Hash, actual: Hash)
    | State(error: BocError)

  type DbKey = Key<Hash>
  type DbValue = Value<Hash>
  type Db = Files<Hash>

  function HashOf(c: Cell<Hash>): Hash {
    Digest(c)
  }

  /** The record belongs in the column family of the key, and a cell is filed under its hash. */
  ghost predicate Fits(k: DbKey, v: DbValue) {
    match k
    case CellKey(h) => v.CellRecord? && HashOf(v.cell) == h
    case AccountKey(_, _) => v.AccountRecord?
    case HeaderKey(_) => v.HeaderRecord?
    case RootKey(_) => v.RootRecord?
  }

  ghost predicate WellTyped(files: Db) {
    forall k :: k in files ==> Fits(k, files[k])
  }

  function AccountsOf(files: Db, shard: ShardIdent): map<AccountId, AccountState> {
    map k | k in files && k.AccountKey? && k.shard == shard && files[k].AccountRecord? :: k.account := files[k].state
  }

  ghost function SetOfKeys(removes: seq<DbKey>): set<DbKey> {
    set k | k in removes
  }

  lemma {:induction false} ReplayRemoves(files: Db, removes: seq<DbKey>)
    ensures Replay(BatchLines<DbKey, DbValue>(removes, []), files) == files - SetOfKeys(removes)
  {
    var lines := BatchLines<DbKey, DbValue>(removes, []);
    if removes != [] {
      ReplayRemoves(files - {removes[0]}, removes[1..]);
      assert lines[0] == Delete(removes[0]);
      assert lines[1..] == BatchLines<DbKey, DbValue>(removes[1..], []);
      assert SetOfKeys(removes) == {removes[0]} + SetOfKeys(removes[1..]);
      assert (files - {removes[0]}) - SetOfKeys(removes[1..]) == files - SetOfKeys(removes);
    }
  }

  lemma {:induction false} ReplayPuts(files: Db, puts: seq<(DbKey, DbValue)>)
    ensures Replay(BatchLines([], puts), files) == View(files, puts)
  {
    var lines := BatchLines([], puts);
    if puts != [] {
      var n := |puts| - 1;
      ReplayPuts(files, puts[..n]);
      var first := BatchLines([], puts[..n]);
      var last := [Put(puts[n].0, puts[n].1)];
      assert lines == first + last;
      ReplayConcat(first, last, files);
      assert Replay(last, View(files, puts[..n])) == Replay([], ReplayLine(last[0], View(files, puts[..n])));
    }
  }

  /** The files after a batch. */
  ghost function After(files: Db, b: Batch<Hash>): Db {
    View(files - SetOfKeys(b.removes), b.puts)
  }

  lemma ReplayBatch(files: Db, b: Batch<Hash>)
    ensures Replay(BatchLines(b.removes, b.puts), files) == After(files, b)
  {
    var x, y := BatchLines<DbKey, DbValue>(b.removes, []), BatchLines<DbKey, DbValue>([], b.puts);
    assert BatchLines(b.removes, b.puts) == x + y;
    ReplayConcat(x, y, files);
    ReplayRemoves(files, b.removes);
    ReplayPuts(files - SetOfKeys(b.removes), b.puts);
  }

  /** What a batch leaves under a key. */
  lemma AfterAt(files: Db, b: Batch<Hash>, k: DbKey)
    ensures
      var after := After(files, b);
      var view := View(files, b.puts);
      && (Latest(b.puts, k).Some? ==> k in after && k in view && after[k] == view[k] == Latest(b.puts, k).value)
      && (Latest(b.puts, k).None? && k in b.removes ==> k !in after)
      && (Latest(b.puts, k).None? && k !in b.removes ==>
           (k in after <==> k in view) && (k in view <==> k in files)
             && (k in view ==> after[k] == view[k] == files[k]))
  {
    ViewIsLatest(files - SetOfKeys(b.removes), b.puts, k);
    ViewIsLatest(files, b.puts, k);
  }

  /** A walk on its own, carried out, releases or retains its root. */
  lemma WalkAlone(files: Db, up: bool, s: set<Hash>, b: Batch<Hash>)
    requires Walked(files, files, up, s, Batch([], []), b)
    ensures After(files, b) == if up then Shifted(files, s, true) else Shifted(files, s, false) - Dropped(files, s)
  {
    var after, shifted := After(files, b), Shifted(files, s, up);
    var expected := if up then shifted else shifted - Dropped(files, s);
    assert Latest<Hash>([], CellKey(Digest(EmptyCell()))).None?;
    forall k
      ensures k in after <==> k in expected
      ensures k in after ==> after[k] == expected[k]
    {
      AfterAt(files, b, k);
    }
  }

  // ---------- Batches of a block commit ----------

  /** b only stores cells that are not there yet. */
  ghost predicate StoresCells(files: Db, b: Batch<Hash>) {
    && b.removes == []
    && forall k :: Latest(b.puts, k).Some? ==>
         k.CellKey? && k !in files && Latest(b.puts, k).value == CellRecord(0, k.hash.cell)
  }

  lemma StoresCellsIsStored(files: Db, b: Batch<Hash>)
    requires StoresCells(files, b)
    ensures Stored(HashOf, files, View(files, b.puts))
  {
    forall k
      ensures k in files ==> k in View(files, b.puts) && View(files, b.puts)[k] == files[k]
      ensures k in View(files, b.puts) && k !in files ==>
        k.CellKey? && View(files, b.puts)[k] == CellRecord(0, k.hash.cell)
    {
      ViewIsLatest(files, b.puts, k);
    }
  }

  /** b' is b with the accounts of one shard replaced. */
  ghost predicate ReplacesAccounts(files: Db, shard: ShardIdent, accounts: map<AccountId, AccountState>, b: Batch<Hash>,
      b': Batch<Hash>)
  {
    && (forall k :: k in b'.removes <==> k in b.removes || (k.AccountKey? && k.shard == shard && k in files))
    && (forall k :: Latest(b'.puts, k) ==
         if k.AccountKey? && k.shard == shard && k.account in accounts then Some(AccountRecord(accounts[k.account]))
         else Latest(b.puts, k))
  }

  lemma ReplacingAccountsKeepsCells(files: Db, shard: ShardIdent, accounts: map<AccountId, AccountState>,
      b: Batch<Hash>, b': Batch<Hash>)
    requires ReplacesAccounts(files, shard, accounts, b, b')
    ensures SameCells(View(files, b.puts), View(files, b'.puts))
  {
    forall k: DbKey | k.CellKey?
      ensures k in View(files, b.puts) <==> k in View(files, b'.puts)
      ensures k in View(files, b.puts) ==> View(files, b.puts)[k] == View(files, b'.puts)[k]
    {
      ViewIsLatest(files, b.puts, k);
      ViewIsLatest(files, b'.puts, k);
    }
  }

  /** The walks of a commit: up from the new root, and down from the old one if there is one. */
  ghost predicate WalkedUpAndDown(files: Db, root: Hash, previous: Option<Hash>, s: set<Hash>, t: set<Hash>,
    b: Batch<Hash>, up: Batch<Hash>, down: Batch<Hash>)
  {
    && Retained(HashOf, View(files, b.puts), root, s, View(files, up.puts))
    && Walked(files, View(files, b.puts), true, s, b, up)
    && (if previous.Some? then
          && Released(HashOf, View(files, up.puts), previous.value, t,
             View(files, down.puts) - Dropped(View(files, up.puts), t))
          && Walked(files, View(files, up.puts), false, t, up, down)
        else down == up)
  }

  /** A cell that the commit drops was written by no earlier step of the batch, so its removal is
      not undone when the journal is replayed with removals first. */
  lemma DroppedIsNotWritten(files: Db, holders: Holders<Hash>, o: Holder, root: Hash, s: set<Hash>, t: set<Hash>,
    cells: Batch<Hash>, b: Batch<Hash>, up: Batch<Hash>, down: Batch<Hash>, k: DbKey)
    requires Safe(HashOf, files, holders) && Incoming !in holders && o in holders
    requires StoresCells(files, cells) && SameCells(View(files, cells.puts), View(files, b.puts))
    requires forall k: DbKey :: k.CellKey? ==> Latest(b.puts, k) == Latest(cells.puts, k)
    requires WalkedUpAndDown(files, root, Some(holders[o]), s, t, b, up, down)
    requires k in Dropped(View(files, up.puts), t)
    ensures Latest(down.puts, k).None?
  {
    var v1, v2, v3 := View(files, cells.puts), View(files, b.puts), View(files, up.puts);
    var both := holders[Incoming := root];
    StoresCellsIsStored(files, cells);
    StoreKeepsSafe(HashOf, files, holders, v1);
    SameCellsKeepSafe(HashOf, v1, v2, holders);
    RetainKeepsSafe(HashOf, v2, holders, Incoming, root, s, v3);
    UpwardWalkGraph(v2);
    ShiftKeepsGraph(v2, s, true);
    SameCellsSameGraph(v1, v2);
    ReleaseIsNotBlocked(HashOf, v3, both, o, k.hash);
    HeldCellWasStored(files, holders, o, v1, k.hash);
    HeldTwiceCountsTwice(v3, both, o, s, root, k.hash);
  }

  lemma HeldCellWasStored(files: Db, holders: Holders<Hash>, o: Holder, files': Db, c: Hash)
    requires Safe(HashOf, files, holders) && Stored(HashOf, files, files') && o in holders
    requires Reaches(RefGraph(files'), holders[o], c)
    ensures CellKey(c) in files
  {
    HeldCellsStay(HashOf, files, holders, o, files', c);
    assert o in Holding(files, holders, c);
  }

  lemma HeldTwiceCountsTwice(files: Db, holders: Holders<Hash>, o: Holder, s: set<Hash>, root: Hash, c: Hash)
    requires Safe(HashOf, files, holders) && o in Holding(files, holders, c) && o != Incoming
    requires Incoming in holders && holders[Incoming] == root && IsClosure(RefGraph(files), root, s)
    ensures c in s ==> Count(files, c) >= 2
  {
    if c in s {
      assert {o, Incoming} <= Holding(files, holders, c);
      SubsetSize({o, Incoming}, Holding(files, holders, c));
    }
  }

  /** The cells after the walk down, without those it drops. */
  ghost function AfterRelease(up: Db, down: Db, previous: Option<Hash>, t: set<Hash>): Db {
    if previous.Some? then down - Dropped(up, t) else up
  }

  lemma ReleasedIsLeft(files: Db, holders: Holders<Hash>, shard: ShardIdent, root: Hash, s: set<Hash>, t: set<Hash>,
    accounts: map<AccountId, AccountState>, cells: Batch<Hash>, b: Batch<Hash>, up: Batch<Hash>, down: Batch<Hash>,
      done: Batch<Hash>)
    requires Safe(HashOf, files, holders) && Incoming !in holders
    requires StoresCells(files, cells) && ReplacesAccounts(files, shard, accounts, cells, b)
    requires WalkedUpAndDown(files, root, RootOf(holders, Shard(shard)), s, t, b, up, down)
    requires done.removes == down.removes
    requires forall k: DbKey :: k.CellKey? ==> Latest(done.puts, k) == Latest(down.puts, k)
    ensures SameCells(AfterRelease(View(files, up.puts), View(files, down.puts), RootOf(holders, Shard(shard)), t),
      After(files, done))
  {
    var v3, v4 := View(files, up.puts), View(files, down.puts);
    var previous := RootOf(holders, Shard(shard));
    ReplacingAccountsKeepsCells(files, shard, accounts, cells, b);
    var left := AfterRelease(v3, v4, previous, t);
    forall k: DbKey | k.CellKey?
      ensures k in left <==> k in After(files, done)
      ensures k in left ==> left[k] == After(files, done)[k]
    {
      AfterAt(files, done, k);
      AfterAt(files, down, k);
      if previous.Some? && k in Dropped(v3, t) {
        DroppedIsNotWritten(files, holders, Shard(shard), root, s, t, cells, b, up, down, k);
      }
    }
  }

  lemma CommitIsCommitted(files: Db, holders: Holders<Hash>, shard: ShardIdent, root: Hash, s: set<Hash>, t: set<Hash>,
    accounts: map<AccountId, AccountState>, cells: Batch<Hash>, b: Batch<Hash>, up: Batch<Hash>, down: Batch<Hash>,
      done: Batch<Hash>)
    returns (st: Stages<Hash>)
    requires Safe(HashOf, files, holders) && Incoming !in holders
    requires StoresCells(files, cells) && ReplacesAccounts(files, shard, accounts, cells, b)
    requires WalkedUpAndDown(files, root, RootOf(holders, Shard(shard)), s, t, b, up, down)
    requires done.removes == down.removes
    requires forall k: DbKey :: k.CellKey? ==> Latest(done.puts, k) == Latest(down.puts, k)
    ensures Committed(HashOf, files, root, RootOf(holders, Shard(shard)), st, After(files, done))
    ensures st.stored == View(files, cells.puts)
  {
    hide Safe, StoresCells, ReplacesAccounts, Retained, Released, SameCells, Stored, View, After, Latest, Walked,
      RootOf, Dropped;
    var v1, v2, v3, v4 := View(files, cells.puts), View(files, b.puts), View(files, up.puts), View(files, down.puts);
    var previous := RootOf(holders, Shard(shard));
    ReleasedIsLeft(files, holders, shard, root, s, t, accounts, cells, b, up, down, done);
    StoresCellsIsStored(files, cells);
    ReplacingAccountsKeepsCells(files, shard, accounts, cells, b);
    st := Stages(v1, v2, s, v3, t, AfterRelease(v3, v4, previous, t));
  }

  /** The cells went through the stages of a commit, the first of which stored exactly the extra ones. */
  ghost predicate CommittedWith(files: Db, root: Hash, previous: Option<Hash>, extra: set<Hash>, st: Stages<Hash>,
      after: Db)
  {
    Committed(HashOf, files, root, previous, st, after) && CellIds(st.stored) == CellIds(files) + extra
  }

  ghost function HashesOf(cells: seq<Cell<Hash>>): set<Hash> {
    set c | c in cells :: HashOf(c)
  }

  /** The hashes of the cells in a bag, whatever its keys. */
  ghost function HashesIn(cells: map<Hash, Cell<Hash>>): set<Hash> {
    set h | h in cells :: HashOf(cells[h])
  }

  /** The hashes of all cells of some bags. */
  ghost function BagCells(bocs: seq<BagOfCells<Hash>>): set<Hash>
    reads bocs
  {
    set i, h | 0 <= i < |bocs| && h in HashesIn(bocs[i].cells) :: h
  }

  /** after holds the cells that were there and the extra ones, but for those that a new trie made superfluous. */
  ghost predicate LeavesCells(files: Db, extra: set<Hash>, trie: set<Hash>, previous: Option<Hash>, after: Db) {
    forall h :: h in CellIds(after) <==> (h in CellIds(files) || h in extra) && !Superseded(files, trie, previous, h)
  }

  lemma CommitLeavesCells(files: Db, holders: Holders<Hash>, shard: ShardIdent, root: Hash, previous: Option<Hash>,
    accounts: map<AccountId, AccountState>, extra: set<Hash>, st: Stages<Hash>, after: Db)
    requires Safe(HashOf, files, holders) && WellTyped(files) && previous == RootOf(holders, Shard(shard))
    requires root == StateRoot(accounts) && TrieHashes(Encoded(accounts), 0) <= extra
    requires CommittedWith(files, root, previous, extra, st, after)
    ensures LeavesCells(files, extra, TrieHashes(Encoded(accounts), 0), previous, after)
  {
    var trie := TrieHashes(Encoded(accounts), 0);
    UpIsTheTrie(files, root, previous, accounts, extra, st, after);
    hide TrieHashes, Encoded, Superseded, CellIds, Safe, WellTyped, Committed, StateRoot;
    forall h
      ensures h in CellIds(after) <==> (h in CellIds(files) || h in extra) && !Superseded(files, trie, previous, h)
    {
      CommitDropsSuperseded(HashOf, files, holders, shard, root, st, after, h);
    }
  }

  lemma UpIsTheTrie(files: Db, root: Hash, previous: Option<Hash>, accounts: map<AccountId, AccountState>,
    extra: set<Hash>, st: Stages<Hash>, after: Db)
    requires WellTyped(files) && root == StateRoot(accounts) && TrieHashes(Encoded(accounts), 0) <= extra
    requires CommittedWith(files, root, previous, extra, st, after)
    ensures st.up == TrieHashes(Encoded(accounts), 0)
  {
    hide *;
    CommitBegins(files, root, previous, extra, st, after);
    StoredCellsAreTyped(files, st.stored);
    SameCellsSameGraph(st.stored, st.written);
    forall c
      ensures c in st.up <==> c in TrieHashes(Encoded(accounts), 0)
    {
      TrieWalk(st.written, accounts, c);
      InClosure(WalkGraph(st.written, true), root, st.up, c);
    }
  }

  lemma CommitBegins(files: Db, root: Hash, previous: Option<Hash>, extra: set<Hash>, st: Stages<Hash>, after: Db)
    requires CommittedWith(files, root, previous, extra, st, after)
    ensures Stored(HashOf, files, st.stored) && SameCells(st.stored, st.written)
      && CellIds(st.stored) == CellIds(files) + extra
    ensures IsClosure(WalkGraph(st.written, true), root, st.up)
  {
  }

  lemma InClosure(g: Graph<Hash>, root: Hash, s: set<Hash>, c: Hash)
    requires IsClosure(g, root, s)
    ensures c in s <==> Reaches(g, root, c)
  {
  }

  lemma StoredCellsAreTyped(files: Db, stored: Db)
    requires WellTyped(files) && Stored(HashOf, files, stored)
    ensures forall files': Db :: SameCells(stored, files') ==> CellsTyped(files')
  {
    forall files': Db | SameCells(stored, files')
      ensures CellsTyped(files')
    {
      forall k | k in files' && k.CellKey?
        ensures Fits(k, files'[k])
      {
        assert k in stored && stored[k] == files'[k];
        if k in files {
          assert Fits(k, files[k]);
        }
      }
    }
  }

  // ---------- What a commit leaves in the other column families ----------

  lemma WalkKeepsOtherFiles(files: Db, up: bool, s: set<Hash>, b: Batch<Hash>, b': Batch<Hash>, k: DbKey)
    requires Walked(files, View(files, b.puts), up, s, b, b') && !k.CellKey?
    ensures Latest(b'.puts, k) == Latest(b.puts, k) && (k in b'.removes <==> k in b.removes)
  {
    ViewIsLatest(files, b.puts, k);
    ViewIsLatest(files, b'.puts, k);
  }

  lemma NothingPut(files: Db, b: Batch<Hash>)
    requires b == Batch([], [])
    ensures StoresCells(files, b) && View(files, b.puts) == files
  {
  }

  lemma KeyedHashes(cells: map<Hash, Cell<Hash>>)
    requires Keyed(cells)
    ensures HashesIn(cells) == cells.Keys
  {
    forall h
      ensures h in HashesIn(cells) <==> h in cells
    {
      assert h in cells ==> HashOf(cells[h]) == h;
    }
  }

  lemma NoBags(bocs: seq<BagOfCells<Hash>>)
    ensures BagCells(bocs[..0]) == {}
  {
  }

  lemma BagsOneMore(bocs: seq<BagOfCells<Hash>>, i: nat)
    requires i < |bocs|
    ensures BagCells(bocs[..i + 1]) == BagCells(bocs[..i]) + HashesIn(bocs[i].cells)
  {
    assert bocs[..i + 1] == bocs[..i] + [bocs[i]];
    forall h
      ensures h in BagCells(bocs[..i + 1]) <==> h in BagCells(bocs[..i]) + HashesIn(bocs[i].cells)
    {
      if h in BagCells(bocs[..i]) {
        var j :| 0 <= j < i && h in HashesIn(bocs[..i][j].cells);
        assert bocs[..i + 1][j] == bocs[..i][j];
      }
      if h in HashesIn(bocs[i].cells) {
        assert bocs[..i + 1][i] == bocs[i];
      }
    }
  }

  ghost predicate CellsTyped(files: Db) {
    forall k :: k in files && k.CellKey? ==> Fits(k, files[k])
  }

  lemma ShiftKeepsCellTypes(files: Db, s: set<Hash>, up: bool)
    requires CellsTyped(files)
    ensures CellsTyped(Shifted(files, s, up))
  {
  }

  lemma WalksKeepCellTypes(files: Db, root: Hash, previous: Option<Hash>, s: set<Hash>, t: set<Hash>,
    b: Batch<Hash>, up: Batch<Hash>, down: Batch<Hash>)
    requires CellsTyped(View(files, b.puts)) && WalkedUpAndDown(files, root, previous, s, t, b, up, down)
    ensures CellsTyped(View(files, down.puts))
  {
    ShiftKeepsCellTypes(View(files, b.puts), s, true);
    if previous.Some? {
      ShiftKeepsCellTypes(View(files, up.puts), t, false);
    }
  }

  lemma StagedCellsAreTyped(files: Db, shard: ShardIdent, accounts: map<AccountId, AccountState>, cells: Batch<Hash>,
      b: Batch<Hash>)
    requires WellTyped(files) && StoresCells(files, cells) && ReplacesAccounts(files, shard, accounts, cells, b)
    ensures CellsTyped(View(files, b.puts))
  {
    StoresCellsIsStored(files, cells);
    ReplacingAccountsKeepsCells(files, shard, accounts, cells, b);
    forall k | k in View(files, b.puts) && k.CellKey?
      ensures Fits(k, View(files, b.puts)[k])
    {
      assert k in View(files, cells.puts);
      if k in files {
        assert View(files, cells.puts)[k] == files[k];
      }
    }
  }

  lemma AccountsFollow(files: Db, files': Db, shard: ShardIdent, accounts: map<AccountId, AccountState>)
    requires forall a :: AccountKey(shard, a) in files' <==> a in accounts
    requires forall a :: a in accounts ==> files'[AccountKey(shard, a)] == AccountRecord(accounts[a])
    ensures AccountsOf(files', shard) == accounts
  {
    var m := AccountsOf(files', shard);
    forall a
      ensures a in m <==> a in accounts
      ensures a in m ==> m[a] == accounts[a]
    {
      assert a in accounts ==> AccountKey(shard, a) in files';
    }
  }

  /** b' is b with the header and the root of a block added. */
  ghost predicate Concludes(header: BlockHeader<Hash>, root: Hash, b: Batch<Hash>, b': Batch<Hash>) {
    && b'.removes == b.removes
    && b'.puts == b.puts + [(HeaderKey(header), HeaderRecord(header))] + [(RootKey(header.shard), RootRecord(root))]
  }

  lemma ConcludingPuts(header: BlockHeader<Hash>, root: Hash, b: Batch<Hash>, b': Batch<Hash>)
    requires Concludes(header, root, b, b')
    ensures forall k :: Latest(b'.puts, k) ==
              (if k == RootKey(header.shard) then Some(RootRecord(root))
               else if k == HeaderKey(header) then Some(HeaderRecord(header)) else Latest(b.puts, k))
  {
    LatestPut(b.puts, HeaderKey(header), HeaderRecord(header));
    LatestPut(b.puts + [(HeaderKey(header), HeaderRecord(header))], RootKey(header.shard), RootRecord(root));
  }

  /** What a commit leaves under a key outside the cells: the root, the header, exactly the given
      accounts in the shard of the block, and everything else as it was. */
  ghost predicate Leaves(files: Db, header: BlockHeader<Hash>, root: Hash, accounts: map<AccountId, AccountState>,
    after: Db, k: DbKey)
  {
    if k == RootKey(header.shard) then k in after && after[k] == RootRecord(root)
    else if k == HeaderKey(header) then k in after && after[k] == HeaderRecord(header)
    else if k.AccountKey? && k.shard == header.shard then
      (k in after <==> k.account in accounts) && (k in after ==> after[k] == AccountRecord(accounts[k.account]))
    else (k in after <==> k in files) && (k in after ==> after[k] == files[k])
  }

  lemma CommitLeaves(files: Db, header: BlockHeader<Hash>, root: Hash, previous: Option<Hash>, s: set<Hash>,
    t: set<Hash>, accounts: map<AccountId, AccountState>, cells: Batch<Hash>, b: Batch<Hash>, up: Batch<Hash>,
    down: Batch<Hash>, done: Batch<Hash>, k: DbKey)
    requires StoresCells(files, cells) && ReplacesAccounts(files, header.shard, accounts, cells, b)
    requires WalkedUpAndDown(files, root, previous, s, t, b, up, down) && Concludes(header, root, down, done)
    requires !k.CellKey?
    ensures Leaves(files, header, root, accounts, After(files, done), k)
  {
    ConcludingPuts(header, root, down, done);
    WalkKeepsOtherFiles(files, true, s, b, up, k);
    if previous.Some? {
      WalkKeepsOtherFiles(files, false, t, up, down, k);
    }
    AfterAt(files, done, k);
  }

  lemma CommitKeepsTypes(files: Db, header: BlockHeader<Hash>, root: Hash, previous: Option<Hash>, s: set<Hash>,
    t: set<Hash>, accounts: map<AccountId, AccountState>, cells: Batch<Hash>, b: Batch<Hash>, up: Batch<Hash>,
      down: Batch<Hash>, done: Batch<Hash>)
    requires WellTyped(files) && StoresCells(files, cells) && ReplacesAccounts(files, header.shard, accounts, cells, b)
    requires WalkedUpAndDown(files, root, previous, s, t, b, up, down) && Concludes(header, root, down, done)
    ensures WellTyped(After(files, done))
  {
    StagedCellsAreTyped(files, header.shard, accounts, cells, b);
    WalksKeepCellTypes(files, root, previous, s, t, b, up, down);
    ConcludingPuts(header, root, down, done);
    var after := After(files, done);
    forall k | k in after
      ensures Fits(k, after[k])
    {
      if k.CellKey? {
        AfterIsInView(files, down, done, k);
      } else {
        CommitLeaves(files, header, root, previous, s, t, accounts, cells, b, up, down, done, k);
      }
    }
  }

  lemma AfterIsInView(files: Db, b: Batch<Hash>, done: Batch<Hash>, k: DbKey)
    requires k in After(files, done) && Latest(done.puts, k) == Latest(b.puts, k)
    ensures k in View(files, b.puts) && View(files, b.puts)[k] == After(files, done)[k]
  {
    AfterAt(files, done, k);
    ViewIsLatest(files, b.puts, k);
  }

  // ---------- The store ----------

  ghost function RecordedRoot(files: Db, shard: ShardIdent): Option<Hash> {
    if RootKey(shard) in files && files[RootKey(shard)].RootRecord? then Some(files[RootKey(shard)].root) else None
  }

  /** The holders are clients with used-up numbers, and the shards with a recorded root. */
  ghost predicate HoldersMatch(files: Db, holders: Holders<Hash>, next: nat) {
    && Incoming !in holders
    && (forall id: nat :: Client(id) in holders ==> id < next)
    && (forall shard :: RootOf(holders, Shard(shard)) == RecordedRoot(files, shard))
  }

  lemma HashesOneMore(cells: seq<Cell<Hash>>, c: Cell<Hash>)
    ensures HashesOf(cells + [c]) == HashesOf(cells) + {HashOf(c)}
  {
    forall h
      ensures h in HashesOf(cells + [c]) <==> h in HashesOf(cells) + {HashOf(c)}
    {
      if h in HashesOf(cells) {
        var d :| d in cells && HashOf(d) == h;
        assert d in cells + [c];
      }
      assert c in cells + [c];
    }
  }

  lemma CellIdsPut(files: Db, h: Hash, count: nat, c: Cell<Hash>)
    ensures CellIds(files[CellKey(h) := CellRecord(count, c)]) == CellIds(files) + {h}
  {
    var files' := files[CellKey(h) := CellRecord(count, c)];
    forall x
      ensures x in CellIds(files') <==> x in CellIds(files) + {h}
    {
      assert CellKey(x) in files' <==> CellKey(x) in files || x == h;
    }
  }

  method ListCells(cells: map<Hash, Cell<Hash>>) returns (list: seq<Cell<Hash>>)
    ensures HashesOf(list) == HashesIn(cells)
  {
    list := [];
    var rest := cells.Keys;
    while rest != {}
      invariant rest <= cells.Keys && forall c :: c in list <==> exists h :: h in cells && h !in rest && cells[h] == c
      decreases |rest|
    {
      var h :| h in rest;
      list := list + [cells[h]];
      rest := rest - {h};
    }
    forall h | h in HashesIn(cells)
      ensures h in HashesOf(list)
    {
      var k :| k in cells && HashOf(cells[k]) == h;
      assert cells[k] in list;
    }
  }

  /** From the root of a trie whose cells are all stored, a walk reaches exactly these cells. */
  lemma TrieWalk(files: Db, accounts: map<AccountId, AccountState>, c: Hash)
    requires CellsTyped(files) && TrieHashes(Encoded(accounts), 0) <= CellIds(files)
    ensures Reaches(WalkGraph(files, true), StateRoot(accounts), c) <==> c in TrieHashes(Encoded(accounts), 0)
  {
    var m := Encoded(accounts);
    var g := WalkGraph(files, true);
    forall h | h in TrieHashes(m, 0)
      ensures h in g && g[h] == h.cell.refs
    {
      assert CellKey(h) in files;
    }
    if c in TrieHashes(m, 0) {
      TrieHangsBelowRoot(m, 0, g, c);
    }
    TrieIsClosed(m, 0);
    assert Closed(g, TrieHashes(m, 0));
    ClosedKeepsReachable(g, TrieHashes(m, 0), StateRoot(accounts));
  }

  /** No cell of the trie over accounts has reached the largest count. */
  ghost predicate CountsHaveRoom(files: Db, accounts: map<AccountId, AccountState>) {
    forall h :: h in TrieHashes(Encoded(accounts), 0) && h in CellIds(files) ==> Count(files, h) < U64_MAX
  }

  /** The walk up from a staged trie is blocked exactly by a full counter. */
  lemma TrieWalkIsNotBlocked(files: Db, staged: Db, accounts: map<AccountId, AccountState>)
    requires CellsTyped(files) && CellsTyped(staged) && TrieHashes(Encoded(accounts), 0) <= CellIds(staged)
    requires forall k: DbKey :: k.CellKey? && k in files ==> k in staged && staged[k] == files[k]
    requires forall k: DbKey :: k.CellKey? && k in staged && k !in files ==> staged[k].count == 0
    ensures CountsHaveRoom(files, accounts) <==>
      forall c :: Reaches(WalkGraph(staged, true), StateRoot(accounts), c) ==> !Blocked(HashOf, staged, true, c)
  {
    forall c
      ensures Reaches(WalkGraph(staged, true), StateRoot(accounts), c) <==> c in TrieHashes(Encoded(accounts), 0)
    {
      TrieWalk(staged, accounts, c);
    }
    forall h | h in TrieHashes(Encoded(accounts), 0)
      ensures Holds(HashOf, staged, h)
      ensures Count(staged, h) == if h in CellIds(files) then Count(files, h) else 0
    {
      assert CellKey(h) in staged;
      assert h in CellIds(files) <==> CellKey(h) in files;
    }
  }

  ghost predicate WalkBlocked(files: Db, up: bool, root: Hash) {
    !IsFree(HashOf, files, up, root)
  }

  /** One of the two walks of a commit is blocked. */
  ghost predicate WalksFail(files: Db, root: Hash, previous: Option<Hash>, s: set<Hash>, b: Batch<Hash>,
      up: Batch<Hash>)
  {
    || WalkBlocked(View(files, b.puts), true, root)
    || (previous.Some? && Retained(HashOf, View(files, b.puts), root, s, View(files, up.puts))
        && WalkBlocked(View(files, up.puts), false, previous.value))
  }

  /** In a safe store the walk up is blocked only by a full counter of the new trie ... */
  lemma CommitIsBlockedByCounters(files: Db, shard: ShardIdent, root: Hash,
    accounts: map<AccountId, AccountState>, cells: Batch<Hash>, b: Batch<Hash>)
    requires WellTyped(files) && root == StateRoot(accounts)
    requires StoresCells(files, cells) && ReplacesAccounts(files, shard, accounts, cells, b)
    requires TrieHashes(Encoded(accounts), 0) <= CellIds(View(files, b.puts))
    ensures WalkBlocked(View(files, b.puts), true, root) <==> !CountsHaveRoom(files, accounts)
  {
    StagedCellsAreTyped(files, shard, accounts, cells, b);
    StoresCellsIsStored(files, cells);
    ReplacingAccountsKeepsCells(files, shard, accounts, cells, b);
    TrieWalkIsNotBlocked(files, View(files, b.puts), accounts);
  }

  /** ... and the walk down never. */
  lemma SafeWalksFail(files: Db, holders: Holders<Hash>, shard: ShardIdent, root: Hash,
    accounts: map<AccountId, AccountState>, cells: Batch<Hash>, b: Batch<Hash>)
    requires Safe(HashOf, files, holders) && Incoming !in holders
    requires StoresCells(files, cells) && ReplacesAccounts(files, shard, accounts, cells, b)
    ensures forall s, up :: WalksFail(files, root, RootOf(holders, Shard(shard)), s, b, up) ==>
                              WalkBlocked(View(files, b.puts), true, root)
  {
    var v1, v2 := View(files, cells.puts), View(files, b.puts);
    StoresCellsIsStored(files, cells);
    ReplacingAccountsKeepsCells(files, shard, accounts, cells, b);
    StoreKeepsSafe(HashOf, files, holders, v1);
    SameCellsKeepSafe(HashOf, v1, v2, holders);
    forall s, up | WalksFail(files, root, RootOf(holders, Shard(shard)), s, b, up)
      ensures WalkBlocked(v2, true, root)
    {
      if Shard(shard) in holders {
        DownwardWalkIsFree(v2, holders, Shard(shard), root, s, View(files, up.puts));
      }
    }
  }

  lemma DownwardWalkIsFree(files: Db, holders: Holders<Hash>, o: Holder, root: Hash, s: set<Hash>, raised: Db)
    requires Safe(HashOf, files, holders) && Incoming !in holders && o in holders
    ensures Retained(HashOf, files, root, s, raised) ==> !WalkBlocked(raised, false, holders[o])
  {
    if Retained(HashOf, files, root, s, raised) {
      RetainKeepsSafe(HashOf, files, holders, Incoming, root, s, raised);
      forall c | Reaches(WalkGraph(raised, false), holders[o], c)
        ensures !Blocked(HashOf, raised, false, c)
      {
        ReleaseIsNotBlocked(HashOf, raised, holders[Incoming := root], o, c);
      }
    }
  }

  /** The file is neither a cell nor one of those that a block of the shard replaces. */
  predicate IsOther(header: BlockHeader<Hash>, k: DbKey) {
    && !k.CellKey? && !(k.AccountKey? && k.shard == header.shard)
    && k != RootKey(header.shard) && k != HeaderKey(header)
  }

  predicate SameFile(files: Db, after: Db, k: DbKey) {
    (k in after <==> k in files) && (k in files ==> after[k] == files[k])
  }

  /** The outcome of a commit outside the cells. */
  ghost predicate SetsAccounts(files: Db, header: BlockHeader<Hash>, root: Hash, accounts: map<AccountId, AccountState>,
      after: Db)
  {
    && (forall k: DbKey :: IsOther(header, k) ==> SameFile(files, after, k))
    && AccountsOf(after, header.shard) == accounts && RecordedRoot(after, header.shard) == Some(root)
    && HeaderKey(header) in after && after[HeaderKey(header)] == HeaderRecord(header)
    && forall other :: other != header.shard ==>
         AccountsOf(after, other) == AccountsOf(files, other)
           && RecordedRoot(after, other) == RecordedRoot(files, other)
  }

  lemma OtherShardsStay(files: Db, header: BlockHeader<Hash>, root: Hash, accounts: map<AccountId, AccountState>,
      after: Db, other: ShardIdent)
    requires WellTyped(files) && other != header.shard
    requires forall k: DbKey :: !k.CellKey? ==> Leaves(files, header, root, accounts, after, k)
    ensures AccountsOf(after, other) == AccountsOf(files, other)
      && RecordedRoot(after, other) == RecordedRoot(files, other)
  {
    assert Leaves(files, header, root, accounts, after, RootKey(other));
    forall a
      ensures AccountKey(other, a) in after <==> a in AccountsOf(files, other)
      ensures a in AccountsOf(files, other) ==>
        after[AccountKey(other, a)] == AccountRecord(AccountsOf(files, other)[a])
    {
      assert Leaves(files, header, root, accounts, after, AccountKey(other, a));
      assert AccountKey(other, a) in files ==> Fits(AccountKey(other, a), files[AccountKey(other, a)]);
    }
    AccountsFollow(files, after, other, AccountsOf(files, other));
  }

  lemma CommitSetsAccounts(files: Db, header: BlockHeader<Hash>, root: Hash, accounts: map<AccountId, AccountState>,
      after: Db)
    requires WellTyped(files)
    requires forall k: DbKey :: !k.CellKey? ==> Leaves(files, header, root, accounts, after, k)
    ensures SetsAccounts(files, header, root, accounts, after)
  {
    assert Leaves(files, header, root, accounts, after, RootKey(header.shard));
    assert Leaves(files, header, root, accounts, after, HeaderKey(header));
    forall a
      ensures AccountKey(header.shard, a) in after <==> a in accounts
      ensures a in accounts ==> after[AccountKey(header.shard, a)] == AccountRecord(accounts[a])
    {
      assert Leaves(files, header, root, accounts, after, AccountKey(header.shard, a));
    }
    AccountsFollow(files, after, header.shard, accounts);
    forall k: DbKey | IsOther(header, k)
      ensures SameFile(files, after, k)
    {
      assert Leaves(files, header, root, accounts, after, k);
    }
    forall other | other != header.shard
      ensures AccountsOf(after, other) == AccountsOf(files, other)
        && RecordedRoot(after, other) == RecordedRoot(files, other)
    {
      OtherShardsStay(files, header, root, accounts, after, other);
    }
  }

  class StateStorage {
    var files: Db
    /** A journal that is written but not yet carried out. */
    var journal: Option<seq<Line<DbKey, DbValue>>>
    /** Who relies on which root. */
    ghost var holders: Holders<Hash>
    ghost var next: nat

    ghost predicate Valid()
      reads this
    {
      WellTyped(files) && journal == None && HoldersMatch(files, holders, next)
    }

    /** No cell below a held root is missing or undercounted. */
    ghost predicate IsSafe()
      reads this
    {
      Safe(HashOf, files, holders)
    }

    constructor ()
      ensures Valid() && IsSafe() && files == map[] && holders == map[]
    {
      files, journal, holders, next := map[], None, map[], 0;
    }

    /** Carries out a written journal line by line and removes it. */
    method Recover()
      modifies this
      ensures files == if old(journal).Some? then Replay(old(journal).value, old(files)) else old(files)
      ensures journal == None && holders == old(holders) && next == old(next)
    {
      if journal.None? {
        return;
      }
      var lines := journal.value;
      for i := 0 to |lines|
        invariant Replay(lines[i..], files) == Replay(lines, old(files))
        invariant holders == old(holders) && next == old(next)
      {
        assert lines[i..][1..] == lines[i + 1..];
        match lines[i] {
          case Delete(key) => files := files - {key};
          case Put(key, value) => files := files[key := value];
        }
      }
      journal := None;
    }

    method Commit(b: Batch<Hash>)
      requires journal == None
      modifies this
      ensures files == After(old(files), b)
      ensures journal == None && holders == old(holders) && next == old(next)
    {
      journal := Some(BatchLines(b.removes, b.puts));
      ReplayBatch(files, b);
      Recover();
    }

    /** Adds the cells that are not stored yet to a batch. */
    method PutCells(cells: seq<Cell<Hash>>, b: Batch<Hash>) returns (r: Result<(), StorageError>, b': Batch<Hash>)
      requires WellTyped(files) && StoresCells(files, b)
      ensures r.Ok? && StoresCells(files, b')
      ensures CellIds(View(files, b'.puts)) == CellIds(View(files, b.puts)) + HashesOf(cells)
    {
      b' := b;
      for i := 0 to |cells|
        invariant StoresCells(files, b')
        invariant CellIds(View(files, b'.puts)) == CellIds(View(files, b.puts)) + HashesOf(cells[..i])
      {
        assert cells[..i + 1] == cells[..i] + [cells[i]];
        HashesOneMore(cells[..i], cells[i]);
        var key := CellKey(HashOf(cells[i]));
        if key in files {
          if files[key].CellRecord? && files[key].cell != cells[i] {
            return Err(Corrupt(HashCollision)), b';
          }
          ViewIsLatest(files, b'.puts, key);
          assert HashOf(cells[i]) in CellIds(View(files, b'.puts));
        } else {
          ViewPut(files, b'.puts, key, CellRecord(0, cells[i]));
          CellIdsPut(View(files, b'.puts), HashOf(cells[i]), 0, cells[i]);
          b' := OneMoreCell(b', cells[i]);
        }
      }
      assert cells[..|cells|] == cells;
      r := Ok(());
    }

    function OneMoreCell(b: Batch<Hash>, c: Cell<Hash>): Batch<Hash> {
      b.(puts := b.puts + [(CellKey(HashOf(c)), CellRecord(0, c))])
    }

    /** The recorded accounts of one shard, collected file by file. */
    method LoadShardState(shard: ShardIdent) returns (accounts: map<AccountId, AccountState>)
      requires WellTyped(files)
      ensures accounts == AccountsOf(files, shard)
    {
      accounts := map[];
      var rest := files.Keys;
      NoAccounts(files - rest, shard);
      hide AccountsOf, WellTyped;
      while rest != {}
        invariant rest <= files.Keys
        invariant accounts == AccountsOf(files - rest, shard)
        decreases |rest|
      {
        var k :| k in rest;
        ghost var before := files - rest;
        OneFileMore(files, rest, k);
        rest := rest - {k};
        if k.AccountKey? && k.shard == shard {
          IsAccountRecord(files, k);
          OneMoreAccount(before, k, files[k]);
          accounts := accounts[k.account := files[k].state];
        } else {
          OneOtherFile(before, k, files[k], shard);
        }
      }
      assert files - rest == files;
    }

    function ShardStateRoot(shard: ShardIdent): Option<Hash>
      reads this
      requires WellTyped(files)
    {
      if RootKey(shard) in files then Some(files[RootKey(shard)].root) else None
    }

    method ReplaceAccounts(shard: ShardIdent, accounts: map<AccountId, AccountState>, b: Batch<Hash>)
      returns (b': Batch<Hash>)
      requires WellTyped(files)
      ensures ReplacesAccounts(files, shard, accounts, b, b')
    {
      var recorded := LoadShardState(shard);
      var removes := ListRemoves(shard, recorded.Keys);
      assert forall a :: a in recorded <==> AccountKey(shard, a) in files;
      b' := WriteAccounts(shard, accounts, Batch(b.puts, b.removes + removes));
    }

    static method ListRemoves(shard: ShardIdent, accounts: set<AccountId>) returns (removes: seq<DbKey>)
      ensures forall k :: k in removes <==> k.AccountKey? && k.shard == shard && k.account in accounts
    {
      removes := [];
      var rest := accounts;
      while rest != {}
        invariant rest <= accounts
        invariant forall k :: k in removes <==> k.AccountKey? && k.shard == shard && k.account in accounts - rest
        decreases |rest|
      {
        var a :| a in rest;
        removes := removes + [AccountKey(shard, a)];
        rest := rest - {a};
      }
    }

    static method WriteAccounts(shard: ShardIdent, accounts: map<AccountId, AccountState>, b: Batch<Hash>)
      returns (b': Batch<Hash>)
      ensures b'.removes == b.removes
      ensures forall k :: Latest(b'.puts, k) ==
                (if k.AccountKey? && k.shard == shard && k.account in accounts
                 then Some(AccountRecord(accounts[k.account])) else Latest(b.puts, k))
    {
      b' := b;
      var rest := accounts.Keys;
      while rest != {}
        invariant rest <= accounts.Keys && b'.removes == b.removes
        invariant forall k :: Latest(b'.puts, k) ==
                    (if k.AccountKey? && k.shard == shard && k.account in accounts.Keys - rest
                     then Some(AccountRecord(accounts[k.account])) else Latest(b.puts, k))
        decreases |rest|
      {
        var a :| a in rest;
        LatestPut(b'.puts, AccountKey(shard, a), AccountRecord(accounts[a]));
        b' := b'.(puts := b'.puts + [(AccountKey(shard, a), AccountRecord(accounts[a]))]);
        rest := rest - {a};
      }
    }

    method PutCell(cell: Cell<Hash>) returns (r: Result<Hash, StorageError>)
      requires Valid()
      modifies this
      ensures Valid() && r == Ok(HashOf(cell))
      ensures Stored(HashOf, old(files), files) && CellIds(files) == old(CellIds(files)) + {HashOf(cell)}
      ensures holders == old(holders) && (old(IsSafe()) ==> IsSafe())
    {
      var stored := StoreAll([cell]);
      HashesOneMore([], cell);
      assert [] + [cell] == [cell];
      r := Ok(HashOf(cell));
    }

    method StoreAll(cells: seq<Cell<Hash>>) returns (r: Result<(), StorageError>)
      requires Valid()
      modifies this
      ensures Valid() && r.Ok?
      ensures Stored(HashOf, old(files), files) && CellIds(files) == old(CellIds(files)) + HashesOf(cells)
      ensures holders == old(holders) && (old(IsSafe()) ==> IsSafe())
    {
      var b;
      r, b := PutCells(cells, Batch([], []));
      StoresCellsIsStored(files, b);
      assert files - SetOfKeys([]) == files;
      if IsSafe() {
        StoreKeepsSafe(HashOf, files, holders, View(files, b.puts));
      }
      Commit(b);
    }

    /** Refuses a bag with a reachable cycle; otherwise stores all its cells. */
    method PutBoc(boc: BagOfCells<Hash>) returns (r: Result<(), StorageError>)
      requires Valid()
      modifies this
      ensures Valid() && holders == old(holders) && (old(IsSafe()) ==> IsSafe())
      ensures r.Ok? <==> !CycleReachable(old(boc.Refs()), boc.rootHash)
      ensures r.Err? ==> files == old(files)
      ensures r.Ok? ==> Stored(HashOf, old(files), files)
      ensures r.Ok? ==> CellIds(files) == old(CellIds(files)) + old(HashesIn(boc.cells))
    {
      var checked := boc.VerifyDag();
      if checked.Err? {
        return Err(State(checked.error));
      }
      var list := ListCells(boc.cells);
      r := StoreAll(list);
    }

    /** One walk from root, committed on its own. */
    method ChangeRoot(root: Hash, up: bool) returns (r: Result<(), StorageError>, ghost s: set<Hash>)
      requires Valid()
      modifies this
      ensures r.Ok? <==> forall c :: Reaches(WalkGraph(old(files), up), root, c) ==> !Blocked(HashOf, old(files), up, c)
      ensures r.Err? ==> files == old(files)
      ensures r.Ok? && up ==> Retained(HashOf, old(files), root, s, files)
      ensures r.Ok? && !up ==> Released(HashOf, old(files), root, s, files)
      ensures Valid() && holders == old(holders) && next == old(next)
    {
      var outcome, b;
      var none: Batch<Hash> := Batch([], []);
      assert View(files, none.puts) == files;
      outcome, s, b := Walk(HashOf, files, root, up, none);
      if outcome.Err? {
        return Err(Corrupt(outcome.error)), s;
      }
      WalkAlone(files, up, s, b);
      Commit(b);
      r := Ok(());
    }

    method RetainCellRoot(root: Hash) returns (r: Result<(), StorageError>, ghost client: nat)
      requires Valid()
      modifies this
      ensures Valid() && (old(IsSafe()) ==> IsSafe())
      ensures r.Ok? <==> forall c :: Reaches(RefGraph(old(files)), root, c) ==> !Blocked(HashOf, old(files), true, c)
      ensures r.Err? ==> files == old(files) && holders == old(holders)
      ensures r.Ok? ==> Client(client) !in old(holders) && holders == old(holders)[Client(client) := root]
      ensures r.Ok? ==> exists s :: Retained(HashOf, old(files), root, s, files)
    {
      client := next;
      UpwardWalkGraph(files);
      ghost var before := files;
      ghost var s;
      r, s := ChangeRoot(root, true);
      if r.Ok? {
        if old(IsSafe()) {
          RetainKeepsSafe(HashOf, before, holders, Client(client), root, s, files);
        }
        holders, next := holders[Client(client) := root], next + 1;
      }
    }

    /** A release that matches an earlier retain succeeds, and takes away only that hold. */
    method ReleaseCellRoot(root: Hash, ghost client: nat) returns (r: Result<(), StorageError>)
      requires Valid()
      modifies this
      ensures Valid()
      ensures r.Ok? <==> forall c :: Reaches(WalkGraph(old(files), false), root, c) ==>
        !Blocked(HashOf, old(files), false, c)
      ensures r.Err? ==> files == old(files) && holders == old(holders)
      ensures r.Ok? ==> exists s :: Released(HashOf, old(files), root, s, files)
      ensures old(IsSafe()) && Client(client) in old(holders) && old(holders)[Client(client)] == root ==>
        r.Ok? && holders == old(holders) - {Client(client)} && IsSafe()
    {
      ghost var before := files;
      ghost var matched := Client(client) in holders && holders[Client(client)] == root;
      if IsSafe() && matched {
        forall c | Reaches(WalkGraph(files, false), root, c)
          ensures !Blocked(HashOf, files, false, c)
        {
          ReleaseIsNotBlocked(HashOf, files, holders, Client(client), c);
        }
      }
      ghost var s;
      r, s := ChangeRoot(root, false);
      if r.Ok? && matched {
        if old(IsSafe()) {
          ReleaseKeepsSafe(HashOf, before, holders, Client(client), root, s, files);
        }
        holders := holders - {Client(client)};
      }
    }

    /** Adds all cells of the given bags to a batch. */
    method PutBags(bocs: seq<BagOfCells<Hash>>, b: Batch<Hash>) returns (b': Batch<Hash>)
      requires WellTyped(files) && StoresCells(files, b)
      ensures StoresCells(files, b') && CellIds(View(files, b'.puts)) == CellIds(View(files, b.puts)) + BagCells(bocs)
    {
      hide WellTyped, StoresCells, View, CellIds, BagCells, HashesIn, HashesOf;
      b' := b;
      NoBags(bocs);
      for i := 0 to |bocs|
        invariant StoresCells(files, b')
        invariant CellIds(View(files, b'.puts)) == CellIds(View(files, b.puts)) + BagCells(bocs[..i])
      {
        BagsOneMore(bocs, i);
        var list := ListCells(bocs[i].cells);
        var _, next := PutCells(list, b');
        b' := next;
      }
      assert bocs[..|bocs|] == bocs;
    }

    /** The batch up to the walks: the cells of the bags and of the trie, and the accounts. */
    method Stage(shard: ShardIdent, accounts: map<AccountId, AccountState>, bocs: seq<BagOfCells<Hash>>,
      proof: map<Hash, Cell<Hash>>)
      returns (b: Batch<Hash>, ghost cells: Batch<Hash>)
      requires WellTyped(files)
      requires Keyed(proof) && proof.Keys == TrieHashes(Encoded(accounts), 0)
      ensures StoresCells(files, cells) && ReplacesAccounts(files, shard, accounts, cells, b)
      ensures TrieHashes(Encoded(accounts), 0) <= CellIds(View(files, b.puts))
      ensures CellIds(View(files, cells.puts)) == CellIds(files) + (BagCells(bocs) + TrieHashes(Encoded(accounts), 0))
    {
      hide WellTyped, StoresCells, ReplacesAccounts, Keyed, TrieHashes, Encoded, View, CellIds, BagCells, HashesIn,
        HashesOf, SameCells, RefGraph;
      NothingPut(files, Batch([], []));
      b := PutBags(bocs, Batch([], []));
      var list := ListCells(proof);
      var _, withProof := PutCells(list, b);
      cells := withProof;
      b := ReplaceAccounts(shard, accounts, withProof);
      ReplacingAccountsKeepsCells(files, shard, accounts, cells, b);
      SameCellsSameGraph(View(files, cells.puts), View(files, b.puts));
      KeyedHashes(proof);
    }

    /** The two walks of a commit. */
    method AdjustRoots(root: Hash, previous: Option<Hash>, b: Batch<Hash>)
      returns (r: Result<(), StorageError>, ghost s: set<Hash>, ghost t: set<Hash>, ghost up: Batch<Hash>,
        down: Batch<Hash>)
      ensures r.Ok? ==>
        WalkedUpAndDown(files, root, previous, s, t, b, up, down) && !WalkBlocked(View(files, b.puts), true, root)
      ensures r.Err? ==> WalksFail(files, root, previous, s, b, up)
    {
      t := {};
      var outcome, raised;
      outcome, s, raised := Walk(HashOf, files, root, true, b);
      up, down := raised, raised;
      if outcome.Err? {
        return Err(Corrupt(outcome.error)), s, t, up, down;
      }
      if previous.Some? {
        outcome, t, down := Walk(HashOf, files, previous.value, false, raised);
        if outcome.Err? {
          return Err(Corrupt(outcome.error)), s, t, up, down;
        }
      }
      r := Ok(());
    }

    /** Replaces the accounts and the state root of one shard, all or nothing. */
    method CommitBlock(header: BlockHeader<Hash>, state: ShardStateTree, bocs: seq<BagOfCells<Hash>>)
      returns (r: Result<(), StorageError>)
      requires Valid()
      modifies this
      ensures Valid()
      ensures r.Err? ==> files == old(files) && holders == old(holders)
      ensures r.Ok? ==> StateRoot(state.accounts) == header.stateRootHash
      ensures r.Ok? ==> SetsAccounts(old(files), header, header.stateRootHash, state.accounts, files)
      ensures r.Ok? ==> holders == old(holders)[Shard(header.shard) := header.stateRootHash]
      ensures old(IsSafe()) ==> IsSafe()
      ensures old(IsSafe()) && r.Ok? ==> exists st :: CommittedWith(old(files), header.stateRootHash,
        RecordedRoot(old(files), header.shard), old(BagCells(bocs)) + TrieHashes(Encoded(state.accounts), 0), st, files)
      ensures old(IsSafe()) && r.Ok? ==> LeavesCells(old(files),
        old(BagCells(bocs)) + TrieHashes(Encoded(state.accounts), 0), TrieHashes(Encoded(state.accounts), 0),
          RecordedRoot(old(files), header.shard), files)
      ensures old(IsSafe()) ==> (r.Ok? <==>
        && StateRoot(state.accounts) == header.stateRootHash
        && (forall i :: 0 <= i < |bocs| ==> !CycleReachable(bocs[i].Refs(), bocs[i].rootHash))
        && CountsHaveRoom(old(files), state.accounts))
    {
      hide WellTyped, HoldersMatch, Safe, CommittedWith, LeavesCells, SetsAccounts, CountsHaveRoom, StateRoot,
        CycleReachable, RecordedRoot;
      var actual := state.StateRootHash();
      if actual != header.stateRootHash {
        return Err(RootMismatch(header.stateRootHash, actual));
      }
      r := VerifyBags(bocs);
      if r.Err? {
        return;
      }
      r := CommitState(header, state, bocs);
    }

    static method VerifyBags(bocs: seq<BagOfCells<Hash>>) returns (r: Result<(), StorageError>)
      ensures r.Ok? <==> forall i :: 0 <= i < |bocs| ==> !CycleReachable(bocs[i].Refs(), bocs[i].rootHash)
    {
      for i := 0 to |bocs|
        invariant forall j :: 0 <= j < i ==> !CycleReachable(bocs[j].Refs(), bocs[j].rootHash)
      {
        var checked := bocs[i].VerifyDag();
        if checked.Err? {
          return Err(State(checked.error));
        }
      }
      r := Ok(());
    }

    method CommitState(header: BlockHeader<Hash>, state: ShardStateTree, bocs: seq<BagOfCells<Hash>>)
      returns (r: Result<(), StorageError>)
      requires Valid() && StateRoot(state.accounts) == header.stateRootHash
      modifies this
      ensures Valid()
      ensures r.Err? ==> files == old(files) && holders == old(holders)
      ensures r.Ok? ==> SetsAccounts(old(files), header, header.stateRootHash, state.accounts, files)
      ensures r.Ok? ==> holders == old(holders)[Shard(header.shard) := header.stateRootHash]
      ensures old(IsSafe()) ==> IsSafe() && (r.Ok? <==> CountsHaveRoom(old(files), state.accounts))
      ensures old(IsSafe()) && r.Ok? ==> exists st :: CommittedWith(old(files), header.stateRootHash,
        RecordedRoot(old(files), header.shard), old(BagCells(bocs)) + TrieHashes(Encoded(state.accounts), 0), st, files)
      ensures old(IsSafe()) && r.Ok? ==> LeavesCells(old(files),
        old(BagCells(bocs)) + TrieHashes(Encoded(state.accounts), 0), TrieHashes(Encoded(state.accounts), 0),
          RecordedRoot(old(files), header.shard), files)
    {
      hide WellTyped, HoldersMatch, Safe, CommittedWith, LeavesCells, SetsAccounts, CountsHaveRoom, StoresCells,
           ReplacesAccounts, WalkBlocked, Keyed, TrieHashes, Encoded, View, CellIds, BagCells, RecordedRoot, StateRoot;
      var proof := state.GenerateProof(seq(32, _ => 0));
      var root := proof.value.rootHash;
      var b, cells := Stage(header.shard, state.accounts, bocs, proof.value.proofBoc.cells);
      CommitIsBlockedByCounters(files, header.shard, root, state.accounts, cells, b);
      ghost var extra := BagCells(bocs) + TrieHashes(Encoded(state.accounts), 0);
      MatchingRoots(files, holders, next, header.shard);
      ghost var before, held := files, holders;
      r := CommitStaged(header, root, state.accounts, cells, b, extra);
      if old(IsSafe()) && r.Ok? {
        ghost var previous := RecordedRoot(before, header.shard);
        ghost var st :| CommittedWith(before, root, previous, extra, st, files);
        CommitLeavesCells(before, held, header.shard, root, previous, state.accounts, extra, st, files);
      }
    }

    /** The walks and the end of a commit whose cells and accounts are in the batch. */
    method CommitStaged(header: BlockHeader<Hash>, root: Hash, ghost accounts: map<AccountId, AccountState>,
      ghost cells: Batch<Hash>, b: Batch<Hash>, ghost extra: set<Hash>)
      returns (r: Result<(), StorageError>)
      requires Valid() && StoresCells(files, cells) && ReplacesAccounts(files, header.shard, accounts, cells, b)
      requires CellIds(View(files, cells.puts)) == CellIds(files) + extra
      modifies this
      ensures Valid()
      ensures r.Err? ==> files == old(files) && holders == old(holders)
      ensures r.Ok? ==> SetsAccounts(old(files), header, root, accounts, files)
      ensures r.Ok? ==> holders == old(holders)[Shard(header.shard) := root]
      ensures old(IsSafe()) ==> IsSafe() && (r.Ok? <==> !WalkBlocked(View(old(files), b.puts), true, root))
      ensures old(IsSafe()) && r.Ok? ==>
        exists st :: CommittedWith(old(files), root, RecordedRoot(old(files), header.shard), extra, st, files)
    {
      var previous := ShardStateRoot(header.shard);
      if IsSafe() {
        assert RootOf(holders, Shard(header.shard)) == previous;
        SafeWalksFail(files, holders, header.shard, root, accounts, cells, b);
      }
      var outcome, s, t, up, down := AdjustRoots(root, previous, b);
      if outcome.Err? {
        return outcome;
      }
      FinishCommit(header, root, previous, accounts, s, t, cells, b, up, down, extra);
      r := Ok(());
    }

    /** Adds the header and the root to the adjusted batch, and carries it out. */
    method FinishCommit(header: BlockHeader<Hash>, root: Hash, previous: Option<Hash>,
      ghost accounts: map<AccountId, AccountState>, ghost s: set<Hash>, ghost t: set<Hash>, ghost cells: Batch<Hash>,
      ghost b: Batch<Hash>, ghost up: Batch<Hash>, down: Batch<Hash>, ghost extra: set<Hash>)
      requires Valid() && CellIds(View(files, cells.puts)) == CellIds(files) + extra
      requires StoresCells(files, cells) && ReplacesAccounts(files, header.shard, accounts, cells, b)
      requires previous == RecordedRoot(files, header.shard)
        && WalkedUpAndDown(files, root, previous, s, t, b, up, down)
      modifies this
      ensures Valid() && holders == old(holders)[Shard(header.shard) := root]
      ensures SetsAccounts(old(files), header, root, accounts, files)
      ensures old(IsSafe()) ==> IsSafe()
      ensures old(IsSafe()) ==> exists st :: CommittedWith(old(files), root, previous, extra, st, files)
    {
      var done := Batch(down.puts + [(HeaderKey(header), HeaderRecord(header))]
        + [(RootKey(header.shard), RootRecord(root))], down.removes);
      hide WellTyped, HoldersMatch, Safe, CommittedWith, SetsAccounts, WalkedUpAndDown, StoresCells, ReplacesAccounts,
           After, Concludes, RecordedRoot, RootOf, View, CellIds;
      ThatConcludes(header, root, down, done);
      WholeOutcome(files, holders, next, header, root, previous, s, t, accounts, cells, b, up, down, done, extra);
      Commit(done);
      holders := holders[Shard(header.shard) := root];
    }
  }

  lemma WholeOutcome(files: Db, holders: Holders<Hash>, next: nat, header: BlockHeader<Hash>, root: Hash,
    previous: Option<Hash>, s: set<Hash>, t: set<Hash>, accounts: map<AccountId, AccountState>, cells: Batch<Hash>,
    b: Batch<Hash>, up: Batch<Hash>, down: Batch<Hash>, done: Batch<Hash>, extra: set<Hash>)
    requires WellTyped(files) && HoldersMatch(files, holders, next)
      && CellIds(View(files, cells.puts)) == CellIds(files) + extra
    requires StoresCells(files, cells) && ReplacesAccounts(files, header.shard, accounts, cells, b)
    requires previous == RecordedRoot(files, header.shard) && WalkedUpAndDown(files, root, previous, s, t, b, up, down)
    requires Concludes(header, root, down, done)
    ensures WellTyped(After(files, done)) && HoldersMatch(After(files, done), holders[Shard(header.shard) := root],
      next)
    ensures SetsAccounts(files, header, root, accounts, After(files, done))
    ensures Safe(HashOf, files, holders) ==>
      && Safe(HashOf, After(files, done), holders[Shard(header.shard) := root])
      && exists st :: CommittedWith(files, root, previous, extra, st, After(files, done))
  {
    hide *;
    MatchingRoots(files, holders, next, header.shard);
    CommitOutcome(files, header, root, previous, s, t, accounts, cells, b, up, down, done);
    NewRootMatches(files, holders, next, header, root, accounts, After(files, done));
    if Safe(HashOf, files, holders) {
      CommitOutcomeInCells(files, holders, header, root, s, t, accounts, cells, b, up, down, done, extra);
    }
  }

  /** Everything a commit promises, stated of the files its batch leaves. */
  lemma CommitOutcome(files: Db, header: BlockHeader<Hash>, root: Hash, previous: Option<Hash>, s: set<Hash>,
    t: set<Hash>, accounts: map<AccountId, AccountState>, cells: Batch<Hash>, b: Batch<Hash>, up: Batch<Hash>,
      down: Batch<Hash>, done: Batch<Hash>)
    requires WellTyped(files) && StoresCells(files, cells) && ReplacesAccounts(files, header.shard, accounts, cells, b)
    requires WalkedUpAndDown(files, root, previous, s, t, b, up, down) && Concludes(header, root, down, done)
    ensures WellTyped(After(files, done)) && SetsAccounts(files, header, root, accounts, After(files, done))
  {
    CommitKeepsTypes(files, header, root, previous, s, t, accounts, cells, b, up, down, done);
    forall k: DbKey | !k.CellKey?
      ensures Leaves(files, header, root, accounts, After(files, done), k)
    {
      CommitLeaves(files, header, root, previous, s, t, accounts, cells, b, up, down, done, k);
    }
    CommitSetsAccounts(files, header, root, accounts, After(files, done));
  }

  lemma CommitOutcomeInCells(files: Db, holders: Holders<Hash>, header: BlockHeader<Hash>, root: Hash, s: set<Hash>,
    t: set<Hash>, accounts: map<AccountId, AccountState>, cells: Batch<Hash>, b: Batch<Hash>, up: Batch<Hash>,
    down: Batch<Hash>, done: Batch<Hash>, extra: set<Hash>)
    requires Safe(HashOf, files, holders) && Incoming !in holders
      && CellIds(View(files, cells.puts)) == CellIds(files) + extra
    requires StoresCells(files, cells) && ReplacesAccounts(files, header.shard, accounts, cells, b)
    requires WalkedUpAndDown(files, root, RootOf(holders, Shard(header.shard)), s, t, b, up, down)
    requires Concludes(header, root, down, done)
    ensures Safe(HashOf, After(files, done), holders[Shard(header.shard) := root])
    ensures exists st :: CommittedWith(files, root, RootOf(holders, Shard(header.shard)), extra, st, After(files, done))
  {
    ConcludingPuts(header, root, down, done);
    var st := CommitIsCommitted(files, holders, header.shard, root, s, t, accounts, cells, b, up, down, done);
    CommitKeepsSafe(HashOf, files, holders, header.shard, root, st, After(files, done));
    assert CommittedWith(files, root, RootOf(holders, Shard(header.shard)), extra, st, After(files, done));
  }

  lemma ThatConcludes(header: BlockHeader<Hash>, root: Hash, b: Batch<Hash>, done: Batch<Hash>)
    requires done == Batch(b.puts + [(HeaderKey(header), HeaderRecord(header))]
      + [(RootKey(header.shard), RootRecord(root))], b.removes)
    ensures Concludes(header, root, b, done)
  {
  }

  lemma MatchingRoots(files: Db, holders: Holders<Hash>, next: nat, shard: ShardIdent)
    requires HoldersMatch(files, holders, next)
    ensures Incoming !in holders && RootOf(holders, Shard(shard)) == RecordedRoot(files, shard)
  {
  }

  lemma NewRootMatches(files: Db, holders: Holders<Hash>, next: nat, header: BlockHeader<Hash>, root: Hash,
    accounts: map<AccountId, AccountState>, after: Db)
    requires HoldersMatch(files, holders, next) && SetsAccounts(files, header, root, accounts, after)
    ensures HoldersMatch(after, holders[Shard(header.shard) := root], next)
  {
  }

  lemma LatestPut(puts: seq<(DbKey, DbValue)>, key: DbKey, value: DbValue)
    ensures forall k :: Latest(puts + [(key, value)], k) == if k == key then Some(value) else Latest(puts, k)
  {
    assert (puts + [(key, value)])[..|puts|] == puts;
  }

  lemma OneFileMore(files: Db, rest: set<DbKey>, k: DbKey)
    requires k in rest && rest <= files.Keys
    ensures files - (rest - {k}) == (files - rest)[k := files[k]]
  {
  }

  lemma IsAccountRecord(files: Db, k: DbKey)
    requires WellTyped(files) && k in files && k.AccountKey?
    ensures files[k].AccountRecord?
  {
  }

  lemma NoAccounts(files: Db, shard: ShardIdent)
    requires files == map[]
    ensures AccountsOf(files, shard) == map[]
  {
  }

  lemma OneOtherFile(files: Db, k: DbKey, value: DbValue, shard: ShardIdent)
    requires !(k.AccountKey? && k.shard == shard)
    ensures AccountsOf(files[k := value], shard) == AccountsOf(files, shard)
  {
    var m, n := AccountsOf(files[k := value], shard), AccountsOf(files, shard);
    forall a
      ensures a in m <==> a in n
      ensures a in m ==> m[a] == n[a]
    {
      assert a in m <==>
        AccountKey(shard, a) in files[k := value] && files[k := value][AccountKey(shard, a)].AccountRecord?;
    }
  }

  lemma OneMoreAccount(files: Db, k: DbKey, value: DbValue)
    requires k.AccountKey? && value.AccountRecord?
    ensures AccountsOf(files[k := value], k.shard) == AccountsOf(files, k.shard)[k.account := value.state]
  {
    var m, n := AccountsOf(files[k := value], k.shard), AccountsOf(files, k.shard)[k.account := value.state];
    forall a
      ensures a in m <==> a in n
      ensures a in m ==> m[a] == n[a]
    {
      assert a in m <==>
        AccountKey(k.shard, a) in files[k := value] && files[k := value][AccountKey(k.shard, a)].AccountRecord?;
    }
  }

  // ---------- What a store remembers ----------

  /** A call of the store: a block commit, or something that changes only cells. */
  datatype Call = Commit(header: BlockHeader<Hash>, root: Hash, accounts: map<AccountId, AccountState>) | OnlyCells

  ghost predicate Changes(files: Db, call: Call, after: Db) {
    match call
    case Commit(header, root, accounts) => SetsAccounts(files, header, root, accounts, after)
    case OnlyCells => forall k: DbKey :: !k.CellKey? ==> SameFile(files, after, k)
  }

  /** Storing, retaining and releasing cells change only cells. */
  lemma CellCallsChangeOnlyCells(files: Db, after: Db, root: Hash, s: set<Hash>)
    requires Stored(HashOf, files, after) || Retained(HashOf, files, root, s, after)
      || Released(HashOf, files, root, s, after)
    ensures Changes(files, OnlyCells, after)
  {
  }

  ghost predicate IsHistory(files: seq<Db>, calls: seq<Call>) {
    |files| == |calls| + 1 && forall i :: 0 <= i < |calls| ==> Changes(files[i], calls[i], files[i + 1])
  }

  ghost predicate HasHeader(files: Db, header: BlockHeader<Hash>) {
    HeaderKey(header) in files && files[HeaderKey(header)] == HeaderRecord(header)
  }

  lemma ChangesKeepHeaders(files: Db, call: Call, after: Db, header: BlockHeader<Hash>)
    requires Changes(files, call, after) && HasHeader(files, header)
    ensures HasHeader(after, header)
  {
    if call.OnlyCells? || call.header != header {
      assert SameFile(files, after, HeaderKey(header));
    }
  }

  /** In every history the header of every block that was ever committed is recorded. */
  lemma {:induction false} HeadersAreKept(files: seq<Db>, calls: seq<Call>, i: nat)
    requires IsHistory(files, calls) && i < |calls| && calls[i].Commit?
    ensures HasHeader(files[|calls|], calls[i].header)
    decreases |calls|
  {
    var n := |calls| - 1;
    assert Changes(files[n], calls[n], files[n + 1]);
    if i < n {
      HeadersAreKept(files[..n + 1], calls[..n], i);
      ChangesKeepHeaders(files[n], calls[n], files[n + 1], calls[i].header);
    }
  }

  lemma OnlyCellsKeepsAccounts(files: Db, after: Db, shard: ShardIdent)
    requires Changes(files, OnlyCells, after)
    ensures AccountsOf(after, shard) == AccountsOf(files, shard)
      && RecordedRoot(after, shard) == RecordedRoot(files, shard)
  {
    assert SameFile(files, after, RootKey(shard));
    var m, n := AccountsOf(after, shard), AccountsOf(files, shard);
    forall a
      ensures a in m <==> a in n
      ensures a in m ==> m[a] == n[a]
    {
      assert SameFile(files, after, AccountKey(shard, a));
      assert a in m <==> AccountKey(shard, a) in after && after[AccountKey(shard, a)].AccountRecord?;
      assert a in n <==> AccountKey(shard, a) in files && files[AccountKey(shard, a)].AccountRecord?;
    }
  }

  /** In every history a shard has the accounts and the root of its last block. */
  lemma {:induction false} LastBlockDecides(files: seq<Db>, calls: seq<Call>, i: nat)
    requires IsHistory(files, calls) && i < |calls| && calls[i].Commit?
    requires forall j :: i < j < |calls| && calls[j].Commit? ==> calls[j].header.shard != calls[i].header.shard
    ensures AccountsOf(files[|calls|], calls[i].header.shard) == calls[i].accounts
    ensures RecordedRoot(files[|calls|], calls[i].header.shard) == Some(calls[i].root)
    decreases |calls|
  {
    var n := |calls| - 1;
    assert Changes(files[n], calls[n], files[n + 1]);
    if i < n {
      LastBlockDecides(files[..n + 1], calls[..n], i);
      hide Changes, AccountsOf, RecordedRoot;
      LaterCallKeeps(files[n], calls[n], files[n + 1], calls[i].header.shard);
    }
  }

  lemma LaterCallKeeps(files: Db, call: Call, after: Db, shard: ShardIdent)
    requires Changes(files, call, after) && (call.Commit? ==> call.header.shard != shard)
    ensures AccountsOf(after, shard) == AccountsOf(files, shard)
      && RecordedRoot(after, shard) == RecordedRoot(files, shard)
  {
    if call.OnlyCells? {
      OnlyCellsKeepsAccounts(files, after, shard);
    }
  }

  // ---------- Commits that are interrupted ----------

  /** The journal of a batch, replayed after any number of crashes, carries out the batch. */
  lemma BatchSurvivesCrashes(files: Db, b: Batch<Hash>, disks: seq<Disk<DbKey, DbValue>>)
    requires |disks| > 0 && disks[0] == Disk(files, map[])
    requires forall i :: 0 <= i < |disks| - 1 ==> CrashLeaves(BatchLines(b.removes, b.puts), disks[i], disks[i + 1])
    ensures ReplayOnDisk(BatchLines(b.removes, b.puts), disks[|disks| - 1]) == Disk(After(files, b), map[])
  {
    CommitSurvivesCrashes(BatchLines(b.removes, b.puts), disks);
    ReplayBatch(files, b);
  }

  /** A block commit whose journal is written ends as a whole, and safe, however often it is interrupted. */
  lemma InterruptedCommitIsWhole(files: Db, holders: Holders<Hash>, next: nat, header: BlockHeader<Hash>, root: Hash,
    previous: Option<Hash>, s: set<Hash>, t: set<Hash>, accounts: map<AccountId, AccountState>, cells: Batch<Hash>,
    b: Batch<Hash>, up: Batch<Hash>, down: Batch<Hash>, done: Batch<Hash>, extra: set<Hash>,
      disks: seq<Disk<DbKey, DbValue>>)
    requires WellTyped(files) && HoldersMatch(files, holders, next)
      && CellIds(View(files, cells.puts)) == CellIds(files) + extra
    requires StoresCells(files, cells) && ReplacesAccounts(files, header.shard, accounts, cells, b)
    requires previous == RecordedRoot(files, header.shard) && WalkedUpAndDown(files, root, previous, s, t, b, up, down)
    requires Concludes(header, root, down, done) && |disks| > 0 && disks[0] == Disk(files, map[])
    requires forall i :: 0 <= i < |disks| - 1 ==> CrashLeaves(BatchLines(done.removes, done.puts), disks[i],
      disks[i + 1])
    ensures
      var disk := ReplayOnDisk(BatchLines(done.removes, done.puts), disks[|disks| - 1]);
      && disk.tmps == map[] && SetsAccounts(files, header, root, accounts, disk.files)
      && HoldersMatch(disk.files, holders[Shard(header.shard) := root], next)
      && (Safe(HashOf, files, holders) ==>
           && Safe(HashOf, disk.files, holders[Shard(header.shard) := root])
           && exists st :: CommittedWith(files, root, previous, extra, st, disk.files))
  {
    hide *;
    BatchSurvivesCrashes(files, done, disks);
    WholeOutcome(files, holders, next, header, root, previous, s, t, accounts, cells, b, up, down, done, extra);
  }

  // ---------- A commit that drops a cell of its own bag ----------

  lemma NoAccountsTrie()
    ensures Encoded(map[]) == map[] && StateRoot(map[]) == Digest(EmptyCell())
      && TrieHashes(Encoded(map[]), 0) == {Digest(EmptyCell())}
  {
    assert Encoded(map[]) == map[];
  }

  /** The trie of one account has no empty part. */
  lemma OneAccountTrie(k: AccountId, state: AccountState)
    ensures Digest(EmptyCell()) !in TrieHashes(Encoded(map[k := state]), 0)
    ensures StateRoot(map[k := state]) != Digest(EmptyCell())
  {
    var m := Encoded(map[k := state]);
    assert m.Keys == {k} && |m| == |m.Keys| == 1;
    assert m[AnyKey(m)] == state.ToBytes();
  }

  /** The first commit of an empty shard leaves its only cell counted once. */
  lemma FirstCommitCounts(shard: ShardIdent, root: Hash, st: Stages<Hash>, files: Db)
    requires CommittedWith(map[], root, None, {Digest(EmptyCell())}, st, files) && root == Digest(EmptyCell())
    ensures CellIds(files) == {Digest(EmptyCell())} && Count(files, Digest(EmptyCell())) == 1
  {
    var e := Digest(EmptyCell());
    assert e in CellIds(st.stored) && CellKey(e) in st.stored && CellKey(e) in st.written;
    SameCellsSameGraph(st.stored, st.written);
    ReachesSelf(WalkGraph(st.written, true), e);
    assert e in st.up;
    SameCellsSameGraph(st.released, files);
    ShiftKeepsGraph(st.written, st.up, true);
    assert files[CellKey(e)] == CellRecord(1, st.stored[CellKey(e)].cell);
  }

  /** With the empty cell as its root, counted once, a commit of one account makes it superfluous. */
  lemma EmptyRootIsSuperseded(files: Db, trie: set<Hash>)
    requires Digest(EmptyCell()) in CellIds(files) && Count(files, Digest(EmptyCell())) == 1
      && Digest(EmptyCell()) !in trie
    ensures Superseded(files, trie, Some(Digest(EmptyCell())), Digest(EmptyCell()))
  {
    ReachesSelf(LooseGraph(files, trie), Digest(EmptyCell()));
  }

  lemma FreshCellsHaveRoom(files: Db, accounts: map<AccountId, AccountState>)
    requires CellIds(files) !! TrieHashes(Encoded(accounts), 0)
    ensures CountsHaveRoom(files, accounts)
  {
  }

  lemma BagOfOne(boc: BagOfCells<Hash>, c: Cell<Hash>)
    requires boc.cells == map[Digest(c) := c]
    ensures HashesIn(boc.cells) == {Digest(c)} == BagCells([boc]) && !CycleReachable(boc.Refs(), boc.rootHash)
  {
    KeyedHashes(boc.cells);
    KeyedHasNoCycle(boc.cells, boc.rootHash);
    assert [boc][0] == boc;
  }

  lemma NothingStored(shard: ShardIdent, bocs: seq<BagOfCells<Hash>>)
    requires bocs == []
    ensures CellIds<Hash>(map[]) == {} && RecordedRoot(map[], shard) == None && BagCells(bocs) == {}
  {
  }

  /** A shard is committed without accounts, as a first block. */
  method CommitEmpty(shard: ShardIdent, rest: seq<byte>) returns (store: StateStorage)
    ensures fresh(store) && store.Valid() && store.IsSafe()
    ensures RecordedRoot(store.files, shard) == Some(Digest(EmptyCell()))
    ensures CellIds(store.files) == {Digest(EmptyCell())} && Count(store.files, Digest(EmptyCell())) == 1
  {
    hide WellTyped, HoldersMatch, Safe, CommittedWith, LeavesCells, CountsHaveRoom, StateRoot, TrieHashes, Encoded,
         CellIds, Count, BagCells, CycleReachable;
    store := new StateStorage();
    var state := new ShardStateTree();
    var root := state.StateRootHash();
    NoAccountsTrie();
    NothingStored(shard, []);
    FreshCellsHaveRoom(store.files, state.accounts);
    var r := store.CommitBlock(BlockHeader(shard, root, rest), state, []);
    assert r.Ok?;
    ghost var st :| CommittedWith(map[], root, None, {} + {Digest(EmptyCell())}, st, store.files);
    assert {} + {Digest(EmptyCell())} == {Digest(EmptyCell())};
    FirstCommitCounts(shard, root, st, store.files);
  }

  /** A run in which the last commit is given a cell in a bag and drops it: the cell was the state of the
      shard before, counted once on behalf of that root alone. */
  method CommitDropsGivenCell(shard: ShardIdent, k: AccountId, account: AccountState, rest: seq<byte>)
    returns (store: StateStorage, boc: BagOfCells<Hash>, ghost before: Db)
    ensures store.Valid() && store.IsSafe() && AccountsOf(store.files, shard) == map[k := account]
    ensures CellIds(before) == {Digest(EmptyCell())} && Count(before, Digest(EmptyCell())) == 1
    ensures LeavesCells(before, BagCells([boc]) + TrieHashes(Encoded(map[k := account]), 0),
      TrieHashes(Encoded(map[k := account]), 0), Some(StateRoot(map[])), store.files)
    ensures Digest(EmptyCell()) in HashesIn(boc.cells) && Digest(EmptyCell()) !in CellIds(store.files)
  {
    hide WellTyped, HoldersMatch, Safe, CommittedWith, LeavesCells, CountsHaveRoom, StateRoot, TrieHashes, Encoded,
         CellIds, Count, BagCells, CycleReachable, HashesIn;
    var e := Digest(EmptyCell());
    store := CommitEmpty(shard, rest);
    before := store.files;
    var state := new ShardStateTree();
    state.Insert(k, account);
    assert state.accounts == map[k := account];
    var root := state.StateRootHash();
    boc := new BagOfCells(e, map[e := EmptyCell()]);
    BagOfOne(boc, EmptyCell());
    NoAccountsTrie();
    OneAccountTrie(k, account);
    FreshCellsHaveRoom(before, state.accounts);
    EmptyRootIsSuperseded(before, TrieHashes(Encoded(state.accounts), 0));
    var r := store.CommitBlock(BlockHeader(shard, root, rest), state, [boc]);
    assert r.Ok?;
    LeftOut(before, BagCells([boc]) + TrieHashes(Encoded(state.accounts), 0), TrieHashes(Encoded(state.accounts), 0),
            Some(e), store.files, e);
  }

  lemma LeftOut(files: Db, extra: set<Hash>, trie: set<Hash>, previous: Option<Hash>, after: Db, h: Hash)
    requires LeavesCells(files, extra, trie, previous, after) && Superseded(files, trie, previous, h)
    ensures h !in CellIds(after)
  {
  }
}
