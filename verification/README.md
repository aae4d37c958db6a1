# ONX chain state: a verified model

A Dafny model of the state, sharding, consensus, transport and execution cores of the ONX node, with
proofs of what each core promises.  `dafny verify dfyconfig.toml` checks all of it.

What is modelled, one file or group of files per core:

- **Cell store** (`CellCounts`, `CellSafety`, `StateStorage`, `Journal`, `JournalText`): content-addressed
  cells with reference counts, walks that adjust the counts in a batch, block commits, and the
  write-ahead journal with its replay after crashes.
- **Patricia dictionary** (`Dictionary`, `DictionaryCells`, `DictionaryReading`): the tree as a finite map, its canonical
  shape, its serialization into cells and what is read back from them, and the dictionary object.
- **Shards** (`ShardIdent`, `HeadWord`, `Sharding`, `Messages`, `MessageOrder`, `Sorting`, `ShardPipeline`): marker-bit
  prefixes as 64-bit words, split and merge of identifiers, migration of accounts and messages.
- **Bags of cells and account trie** (`Cells`, `Graphs`, `BagOfCells`, `AccountState`, `AccountTrie`).
- **Consensus** (`Consensus`, `Stakes`, `Modular`): one height of the round-based engine.
- **Reliable transfer** (`RldpFrames`, `RldpChunks`, `RldpSender`, `RldpReceiver`, `RldpLink`): frames,
  both endpoints, and the two of them over a channel that loses, reorders and repeats.
- **Routing** (`Router`), **block synchronization** (`BlockValidity`, `BlockSync`), **output queue**
  (`OutputQueue`), **rewards** (`Rewards`).
- **Execution** (`BitIO`, `Packing`, `VmTypes`, `Interpreter`, `VmLaws`, `InstructionLaws`, `OperandLaws`,
  `WideLaws`): bit-level builders and slices, every opcode of the interpreter, and what whole steps of it do.

Objects whose methods update fields are classes with those fields; their methods are specified by
functions on values, about which the lemmas speak.  Ghost fields record what a class cannot see of
itself: who holds a root (`StateStorage.holders`), the map a dictionary stands for
(`Dictionary.entries`), the trusted anchors (`BlockSyncEngine.anchors`), the bits written
(`Builder.contents`).

Idealizations.  The cell hash of dictionary, trie and store is a free constructor over cells
(`Cells.Hash`), so that equal hashes mean equal cells; bags of cells, block hashes, payload digests,
message hashes and the hashes of the interpreter are arbitrary functions or identifiers.  Signature
checks are an arbitrary predicate.  Files are a map from typed keys to records (in `StateStorage`) or
from paths to bytes (in `JournalText`); a journal is written as a whole or not at all.

## Where code and documentation differ

The model follows the code.

- A release stops at the first cell that is counted more than once, while a retain counts everything
  below a root: counts are only a lower bound, and cells may be kept longer than needed
  (`CellSafety.ReleaseUndoesRetain` says exactly when a release undoes its retain).
- A commit stores the cells of its bags and then releases the old root: a given cell that was already stored,
  counted once on behalf of the old root alone and is not below the new one, is dropped all the same
  (`StateStorages.CommitLeavesCells` says exactly which cells are left, `StateStorages.CommitDropsGivenCell`
  is a run).  A cell that the commit itself writes is never dropped from a safe store.
- `BagOfCells::add_cell` reports a cycle but keeps the cell that closes it.
- Stakes are added with saturation; quorums overlap in a third of the stake exactly for totals of at most
  64 bits (`Consensus.OverlapNeedsExactCounting`).
- Gas is added with saturation; with the largest limit a program need not end
  (`Interpreters.LimitBoundsRuns`).
- Rewards are promised not to depend on the order of the input; that holds for the rewards, and for the
  reported error exactly as `Rewards.OrderMattersExactlyWhenMixed` says.
- The rewards are promised to make up the reward of the epoch; when products saturate part of it is lost
  (`Rewards.PaidInFull`, `Rewards.SaturationLosesRewards`).
- The queue is described as keeping logical times increasing for each pair; an emptied lane forgets
  its last time (`OutputQueues.EmptiedLaneForgets` shows it, `OutputQueues.ServedOrderIsAccepted` and
  `OutputQueues.LaterEntriesAreAccepted` say when the order is accepted).
- Arithmetic is described as checked against the declared width.  ADD, SUB, NEG, MUL and DIVMOD check the width
  itself but compute with 128 bits whatever it is (`InstructionLaws.BinaryStep`); DIV and the shifts do fit their
  result, but unsigned or modulo a width they always overflow for widths of 127 and 128, although the modulo
  flavor is promised never to (`WideLaws.WideStep`).
- DIVMOD is described as rounding down; it rounds towards zero (`InstructionLaws.DivModStep`).
- STBITS is described as failing for a number that does not fit; it stores the low bits
  (`OperandLaws.StoreBitsStep`).
- REPEAT is described as executing a block as often as its count says; it goes back on every count but zero
  (`InstructionLaws.RepeatStep`).

## Model

The rows follow the modules: cell store, reference counts and garbage collection; journal and recovery; patricia dictionary; shards: prefixes, split and merge; bags of cells and account trie; consensus; reliable transfer; hypercube routing; block synchronization; output queue; rewards; cell builders and slices; interpreter.

| member | source | states |
|---|---|---|
| `CellCounts.Walk` | crates/protocol/onx-state-model/src/storage.rs:194-265 | a walk succeeds exactly when no cell it reaches is absent, foreign to its key, full or uncounted; it then changes by one exactly the counts of the reachable cells, on any reference graph |
| `CellCounts.AdjustCell` | crates/protocol/onx-state-model/src/storage.rs:221-265 | the recursive step: cells already seen are skipped, everything reached is adjusted once, a failure names a reachable blocked cell, and the recursion ends on cyclic and dangling graphs too |
| `CellCounts.AdjustOne` | crates/protocol/onx-state-model/src/storage.rs:221-263 | one cell: fails exactly when blocked; followed are all references upwards, and downwards those of a cell counted once |
| `CellSafety.RunsKeepHeldCells` | crates/protocol/onx-state-model/src/storage.rs:151-265 | in every run of put, retain, matched release and commit, every cell below a retained or current shard root is stored with a count of at least the number of such roots above it |
| `CellSafety.MatchedReleaseSucceeds` | crates/protocol/onx-state-model/src/storage.rs:105-107 | in every such run a release that matches an earlier retain meets no absent cell and no count of zero |
| `CellSafety.RetainKeepsSafe` | crates/protocol/onx-state-model/src/storage.rs:102-104 | retaining a root keeps all held cells counted, the new holder included |
| `CellSafety.ReleaseKeepsSafe` | crates/protocol/onx-state-model/src/storage.rs:105-107 | releasing a held root keeps everything below the other held roots, although the walk stops at the first shared cell |
| `CellSafety.ReleaseIsNotBlocked` | crates/protocol/onx-state-model/src/storage.rs:255-263 | the downward walk from a held root only meets stored, counted cells below that root |
| `CellSafety.StoreKeepsSafe` | crates/protocol/onx-state-model/src/storage.rs:200-220 | storing further cells gives no held root a new descendant and no count a new meaning |
| `CellSafety.CommitKeepsSafe` | crates/protocol/onx-state-model/src/storage.rs:151-193 | counting up from the new root before counting down from the old one never uncounts a shared cell |
| `CellSafety.ReleaseUndoesRetain` | crates/protocol/onx-state-model/src/storage.rs:221-265 | a retain and its release restore the store exactly when the root was counted and has nothing else below; otherwise all else below stays counted once too often, or an uncounted root is gone |
| `CellSafety.CommitDropsSuperseded` | crates/protocol/onx-state-model/src/storage.rs:151-193 | a stored or given cell is absent after a commit exactly when it was counted once, is not below the new root, and is reached from the old root through such cells |
| `StateStorages.DroppedIsNotWritten` | crates/protocol/onx-state-model/src/storage.rs:276-305 | a cell removed by a commit is written by no step of the same batch, so that removals may be replayed before writes |
| `StateStorages.StateStorage.PutCell` | crates/protocol/onx-state-model/src/storage.rs:78-84 | the cell is stored under its hash and no other cell is, other records stay, safety is kept |
| `StateStorages.StateStorage.PutBoc` | crates/protocol/onx-state-model/src/storage.rs:95-101 | stores exactly the cells of the bag when its root reaches no cycle, and nothing otherwise |
| `StateStorages.StateStorage.PutCells` | crates/protocol/onx-state-model/src/storage.rs:200-220 | the batch gains exactly those of the given cells that are not stored yet, with count zero; afterwards the stored cells are the former ones and the given ones |
| `StateStorages.StateStorage.ChangeRoot` | crates/protocol/onx-state-model/src/storage.rs:194-199 | one walk committed on its own: exact success condition, exact new counts, no change on failure |
| `StateStorages.StateStorage.RetainCellRoot` | crates/protocol/onx-state-model/src/storage.rs:102-104 | succeeds exactly when nothing below the root is missing or full; registers one more holder and keeps the store safe |
| `StateStorages.StateStorage.ReleaseCellRoot` | crates/protocol/onx-state-model/src/storage.rs:105-107 | a matched release of a safe store succeeds, removes that holder only and leaves the store safe |
| `StateStorages.StateStorage.LoadShardState` | crates/protocol/onx-state-model/src/storage.rs:117-136 | collects exactly the accounts recorded for the shard |
| `StateStorages.StateStorage.CommitBlock` | crates/protocol/onx-state-model/src/storage.rs:151-193 | all or nothing: afterwards the shard has exactly the committed accounts and root, the header is recorded, headers of all other blocks and the accounts and roots of other shards are as before, exactly the cells of the bags and the trie went in, the stored cells left are those but for the ones it made superfluous, safety is kept; on a safe store it fails only for a wrong root, a cyclic bag or a full counter |
| `StateStorages.HeadersAreKept` | crates/protocol/onx-state-model/src/storage.rs:145-193 | in every history of commits and cell operations, the header of every block ever committed is still recorded |
| `StateStorages.LastBlockDecides` | crates/protocol/onx-state-model/src/storage.rs:117-193 | in every history a shard has exactly the accounts and the root of its last committed block |
| `StateStorages.CellCallsChangeOnlyCells` | crates/protocol/onx-state-model/src/storage.rs:78-107 | storing, retaining and releasing cells touch no header, account or root |
| `StateStorages.StateStorage.Stage` | crates/protocol/onx-state-model/src/storage.rs:161-181 | the batch before the walks: exactly the cells of bags and trie added, accounts of one shard replaced |
| `StateStorages.CommitOutcome` | crates/protocol/onx-state-model/src/storage.rs:151-193 | what a commit batch leaves outside the cells, for every shard and every key |
| `StateStorages.SafeWalksFail` | crates/protocol/onx-state-model/src/storage.rs:182-190 | on a safe store the walk down from the old root never makes a commit fail |
| `StateStorages.CommitIsBlockedByCounters` | crates/protocol/onx-state-model/src/storage.rs:182-190 | the walk up from the committed trie is blocked exactly by a counter at its largest value |
| `StateStorages.CommitLeavesCells` | crates/protocol/onx-state-model/src/storage.rs:151-193 | the cells left by a commit: those found or given, except the superfluous ones |
| `StateStorages.CommitDropsGivenCell` | crates/protocol/onx-state-model/src/storage.rs:151-193 | a run of two commits of one shard, without accounts and then with one: the second is given the empty cell in a bag, and it is absent afterwards |
| `Journals.CrashesDoNotMatter` | crates/protocol/onx-state-model/src/storage.rs:306-331 | any number of crashes at any line of a replay, each on what the crash before left, and one full replay leave what one uninterrupted replay leaves |
| `Journals.CommitSurvivesCrashes` | crates/protocol/onx-state-model/src/storage.rs:276-331 | a batch whose journal is complete is carried out exactly, and no temporary file survives |
| `Journals.ReplayAt` | crates/protocol/onx-state-model/src/storage.rs:306-331 | the last line on a file alone decides what a replay leaves there |
| `StateStorages.BatchSurvivesCrashes` | crates/protocol/onx-state-model/src/storage.rs:276-331 | a batch of the store whose journal is written is carried out, whatever crashes interrupt its replay |
| `StateStorages.InterruptedCommitIsWhole` | crates/protocol/onx-state-model/src/storage.rs:151-331 | a block commit whose journal is written ends with exactly its accounts, its root, its stages of the cells, a safe store and no temporary file, whatever crashes interrupt it |
| `JournalTexts.HexRoundTrip` | crates/protocol/onx-state-model/src/storage.rs:365-381 | hexadecimal text decodes to the bytes it was made of |
| `JournalTexts.JournalRoundTrip` | crates/protocol/onx-state-model/src/storage.rs:276-331 | a journal text parses back to the lines it was written from |
| `JournalTexts.WriteJournal` | crates/protocol/onx-state-model/src/storage.rs:276-305 | the written text is that of all removals followed by all writes |
| `JournalTexts.RecoverText` | crates/protocol/onx-state-model/src/storage.rs:306-331 | recovery from text carries out exactly the lines before the first malformed one, and succeeds exactly when there is none |
| `JournalTexts.BatchRoundTrip` | crates/protocol/onx-state-model/src/storage.rs:276-331 | writing a batch and parsing the journal gives back the batch |
| `StateStorages.StateStorage.Recover` | crates/protocol/onx-state-model/src/storage.rs:306-331 | carries out a pending journal line by line and removes it |
| `StateStorages.StateStorage.Commit` | crates/protocol/onx-state-model/src/storage.rs:276-305 | after a commit the files are those of the batch, removals first |
| `Dictionaries.InsertAtRefines` | crates/protocol/onx-execution/src/dictionary.rs:108-192 | inserting keeps all keys of one width, returns the former value of the key, sets it and touches no other key |
| `Dictionaries.RemoveAtRefines` | crates/protocol/onx-execution/src/dictionary.rs:193-251 | removing returns the former value, clears that key only, and changes nothing if the key is absent |
| `Dictionaries.InsertRefines` | crates/protocol/onx-execution/src/dictionary.rs:59-69 | set on a whole dictionary is update of the finite map |
| `Dictionaries.RemoveRefines` | crates/protocol/onx-execution/src/dictionary.rs:70-82 | delete on a whole dictionary is removal from the finite map |
| `Dictionaries.GetSplitsLabel` | crates/protocol/onx-execution/src/dictionary.rs:231-255 | a label may be split before any bit without changing any lookup, which prepend relies on |
| `Dictionaries.ShapeIsCanonical` | crates/protocol/onx-execution/src/dictionary.rs:108-251 | two trees of one width with the same lookups are the same tree |
| `Dictionaries.HistoryRefinesMap` | crates/protocol/onx-execution/src/dictionary.rs:51-82 | after any history of set and delete the tree looks up exactly the map of that history |
| `Dictionaries.HistoryDoesNotMatter` | crates/protocol/onx-execution/src/dictionary.rs:108-251 | two histories give the same tree exactly when they give the same map |
| `DictionaryCells.PackBuffer` | crates/protocol/onx-execution/src/dictionary.rs:284-292 | the loop over a zeroed buffer computes the packed bits, padding zero |
| `DictionaryCells.SerializeFits` | crates/protocol/onx-execution/src/dictionary.rs:256-283 | no node of any label length needs more than 128 data bytes or three references |
| `DictionaryCells.LabelTailIsInjective` | crates/protocol/onx-execution/src/dictionary.rs:276-283 | the chain of label cells determines the label |
| `DictionaryCells.NodeCellIsInjective` | crates/protocol/onx-execution/src/dictionary.rs:266-275 | a node cell determines kind, whole label and references |
| `DictionaryCells.SerializeIsInjective` | crates/protocol/onx-execution/src/dictionary.rs:256-283 | the root cell determines the tree |
| `DictionaryCells.RootCellCommitsToMap` | crates/protocol/onx-execution/src/dictionary.rs:59-82 | two dictionaries of a width, after any histories, have equal root cells exactly when they hold the same map |
| `DictionaryReading.NodeIsRead` | crates/protocol/onx-execution/src/dictionary.rs:256-283 | tag, label length, label bits, chained label cells and references are read back from the cell of a node |
| `DictionaryReading.CellsAreSearched` | crates/protocol/onx-execution/src/dictionary.rs:256-283 | following the references of serialized cells by the bits of a key finds what the tree holds |
| `DictionaryReading.RootCellHoldsEntries` | crates/protocol/onx-execution/src/dictionary.rs:59-82 | from the root cell of a dictionary, by its cells alone, exactly its entries are read |
| `DictionaryCells.KeysNameEntries` | crates/protocol/onx-execution/src/dictionary.rs:83-90 | two keys name one entry exactly when they agree on the first bits, however the padding bits differ |
| `DictionaryCells.Dictionary.New` | crates/protocol/onx-execution/src/dictionary.rs:35-44 | widths 1 to 1023 and no others |
| `DictionaryCells.Dictionary.DictGet` | crates/protocol/onx-execution/src/dictionary.rs:51-58 | the entry of the map, or an error for a key of the wrong length |
| `DictionaryCells.Dictionary.DictSet` | crates/protocol/onx-execution/src/dictionary.rs:59-69 | one entry of the map is updated, the former one returned, the root cell rebuilt; errors change nothing |
| `DictionaryCells.Dictionary.DictDel` | crates/protocol/onx-execution/src/dictionary.rs:70-82 | one entry is removed and returned, the root cell rebuilt; errors change nothing |
| `DictionaryCells.EqualRootsEqualMaps` | crates/protocol/onx-execution/src/dictionary.rs:48-50 | two dictionary objects of a width have the same root cell exactly when they hold the same entries |
| `ShardIdents.PrefixLenIsMarker` | crates/protocol/onx-data-structures/src/shard.rs:80-92 | the prefix length is the position of the lowest set bit, at most 60 |
| `ShardIdents.PrefixRoundTrip` | crates/protocol/onx-data-structures/src/shard.rs:56-92 | encoding prefix bits and reading length and bits back are inverse |
| `ShardIdents.PrefixIsCanonical` | crates/protocol/onx-data-structures/src/shard.rs:56-92 | a proper identifier is rebuilt from its own prefix bits |
| `Sharding.SplitPartitions` | crates/protocol/onx-sharding/src/lib.rs:87-118 | both children of a shard are proper, and an account of the shard lies in exactly one of them |
| `Sharding.OwnsExactlyItsPrefix` | crates/protocol/onx-data-structures/src/shard.rs:100-116 | a shard owns exactly the accounts whose leading bits are its prefix bits |
| `Sharding.ChildrenByBit` | crates/protocol/onx-sharding/src/lib.rs:87-118 | of a shard split after len bits, the left child owns exactly its accounts whose bit number len is 0, the right child those whose bit is 1 |
| `Sharding.ParentOfChildren` | crates/protocol/onx-sharding/src/pipeline.rs:204-221 | the two children of a shard have it as their common parent, in either order |
| `Sharding.ChildrenOfParent` | crates/protocol/onx-sharding/src/pipeline.rs:204-221 | two shards have a common parent only if they are its two children |
| `ShardPipelines.ValidateOwnership` | crates/protocol/onx-sharding/src/pipeline.rs:119-141 | accepts exactly the states all of whose accounts and message destinations belong to the shard, and names the kind of offender |
| `ShardPipelines.SplitShardState` | crates/protocol/onx-sharding/src/pipeline.rs:144-187 | succeeds exactly for owned states of shards that can be split; each child gets its accounts and its messages in order |
| `ShardPipelines.MergeShardStates` | crates/protocol/onx-sharding/src/pipeline.rs:189-202 | succeeds exactly for owned sibling states; the result has both account maps and both queues, sorted |
| `ShardPipelines.SplitConserves` | crates/protocol/onx-sharding/src/pipeline.rs:144-187 | the children have disjoint accounts that make up the parent, and its messages with multiplicity |
| `ShardPipelines.MergeConserves` | crates/protocol/onx-sharding/src/pipeline.rs:189-202 | a merge overwrites no account and loses no message |
| `ShardPipelines.SplitThenMerge` | crates/protocol/onx-sharding/src/pipeline.rs:144-230 | merging the two halves in either order gives back the shard with its queue in order of time and hash |
| `ShardPipelines.RunsConserve` | crates/protocol/onx-sharding/src/pipeline.rs:119-230 | in every run of splits and merges each account of the shard has exactly one active shard, and accounts and messages are conserved |
| `ShardPipelines.RunsSplitDownTo60` | crates/protocol/onx-sharding/src/lib.rs:87-118 | in every run of splits and merges an active shard can be split exactly when its prefix does not have 60 bits |
| `MessageOrder.SortSorts` | crates/protocol/onx-sharding/src/pipeline.rs:223-230 | sorting yields a permutation in order of time and hash |
| `MessageOrder.SortForgetsOrder` | crates/protocol/onx-sharding/src/pipeline.rs:223-230 | the sorted queue does not depend on the order in which messages arrived |
| `BagsOfCells.BagOfCells.VerifyDag` | crates/protocol/onx-state-model/src/boc.rs:61-90 | accepts exactly when no cycle of stored cells is reachable from the root, for arbitrary maps with missing children |
| `BagsOfCells.BagOfCells.Dfs` | crates/protocol/onx-state-model/src/boc.rs:65-85 | the recursive walk: visited cells are fully explored and on no cycle; an error exhibits a reachable cycle |
| `BagsOfCells.BagOfCells.New` | crates/protocol/onx-state-model/src/boc.rs:16-30 | a bag is built exactly when the root is there and reaches no cycle |
| `BagsOfCells.BagOfCells.AddCell` | crates/protocol/onx-state-model/src/boc.rs:41-46 | the cell is added even when the check then fails |
| `AccountStates.EncodingIsInjective` | crates/protocol/onx-state-model/src/account.rs:77-111 | different account records have different encodings |
| `AccountTries.TrieIsInjective` | crates/protocol/onx-state-model/src/tree.rs:86-131 | equal root cells commit to equal maps |
| `AccountTries.TrieIsClosed` | crates/protocol/onx-state-model/src/tree.rs:86-131 | no reference leads out of the emitted cells |
| `AccountTries.LeavesAreTheEntries` | crates/protocol/onx-state-model/src/tree.rs:86-131 | the leaf cells are exactly the accounts |
| `AccountTries.TrieHangsBelowRoot` | crates/protocol/onx-state-model/src/tree.rs:86-131 | every emitted cell is reachable from the root |
| `AccountTries.BuildTrieCells` | crates/protocol/onx-state-model/src/tree.rs:86-131 | builds that root cell and files exactly those cells; it fails only for a value of more than four chunks |
| `AccountTries.StateRootCommits` | crates/protocol/onx-state-model/src/tree.rs:38-53 | equal state roots mean equal account maps |
| `AccountTries.BitsLeadToLeaf` | crates/protocol/onx-state-model/src/tree.rs:86-140 | following the bits of a key from the root, first reference for 0, ends at its leaf, or for an absent key at the empty cell or a leaf of another key |
| `AccountTries.StateRootLeadsToAccounts` | crates/protocol/onx-state-model/src/tree.rs:38-140 | from the state root, the bits of an identifier lead to its whole account record, and exactly if there is one |
| `AccountTries.ShardStateTree.StateRootHash` | crates/protocol/onx-state-model/src/tree.rs:38-53 | the computed root is the hash of the trie over the encoded accounts |
| `AccountTries.ShardStateTree.GenerateProof` | crates/protocol/onx-state-model/src/tree.rs:54-77 | returns the root and a bag of exactly the cells of the trie; building the bag never fails |
| `AccountTries.KeyedHasNoCycle` | crates/protocol/onx-state-model/src/tree.rs:68-69 | cells filed under their own hash reach no cycle |
| `Consensus.ConsensusEngine.New` | crates/protocol/onx-consensus/src/engine.rs:134-165 | duplicates and stake-free sets are rejected; otherwise an engine in round 0 that awaits a proposal |
| `Consensus.ConsensusEngine.ReceiveProposal` | crates/protocol/onx-consensus/src/engine.rs:186-223 | accepted exactly when not final, for this round, from the validator with round mod n identifiers below its own, signed by it and not conflicting; a rejected or repeated one changes nothing |
| `Consensus.ConsensusEngine.OneLeads` | crates/protocol/onx-consensus/src/engine.rs:175-181 | the leader of a round is the one validator such that as many identifiers are below its own as the round leaves modulo the number of validators |
| `Consensus.ConsensusEngine.ReceiveVote` | crates/protocol/onx-consensus/src/engine.rs:224-275 | accepted exactly when fresh or harmlessly late; only a fresh vote changes the view, by counting it; nothing changes after finality |
| `Consensus.ConsensusEngine.CountVote` | crates/protocol/onx-consensus/src/engine.rs:262-319 | puts the vote into its bucket and leaves the phase exactly when the bucket becomes a quorum |
| `Consensus.ConsensusEngine.AdvanceAfterQuorum` | crates/protocol/onx-consensus/src/engine.rs:298-319 | the next step; a commit quorum moves its votes into the final block |
| `Consensus.ConsensusEngine.OnTimeout` | crates/protocol/onx-consensus/src/engine.rs:276-289 | advances the round exactly when the step has lasted at least the timeout configured for it, dropping proposal and votes; never after finality |
| `Consensus.ConsensusEngine.HasSupermajority` | crates/protocol/onx-consensus/src/engine.rs:182-184 | true exactly when the voters of a phase hold two thirds of the counted stake |
| `Consensus.ConsensusEngine.VoteStake` | crates/protocol/onx-consensus/src/engine.rs:290-297 | the saturating sum over the voters of a phase |
| `Consensus.ConsensusEngine.CountingKeepsValid` | crates/protocol/onx-consensus/src/engine.rs:224-319 | the invariant of every run: each phase that was left has a quorum of signed votes of distinct known validators for the one proposal of the round |
| `Consensus.EachLeadsOnce` | crates/protocol/onx-consensus/src/engine.rs:175-181 | in n consecutive rounds each of n positions comes up exactly once |
| `Consensus.LeadersRotate` | crates/protocol/onx-consensus/src/engine.rs:175-181 | in n consecutive rounds below the counter limit each validator leads exactly once |
| `Consensus.CountingIsExact` | crates/protocol/onx-consensus/src/engine.rs:290-297 | counting loses nothing when the whole stake fits 64 bits |
| `Consensus.SameRoundAgreement` | crates/protocol/onx-consensus/src/engine.rs:182-319 | two engines final in the same round share commit voters of at least a third of the stake, each with verified commits for both blocks |
| `Consensus.OverlapNeedsExactCounting` | crates/protocol/onx-consensus/src/engine.rs:147-184 | any two quorums of validators with a given whole stake share a third of it exactly when that stake fits the 64-bit counter |
| `Stakes.QuorumsOverlap` | crates/protocol/onx-consensus/src/engine.rs:182-184 | two sets of two thirds of the stake overlap in at least one third |
| `RldpFrames.FrameRoundTrip` | crates/node/onx-networking/src/rldp.rs:56-108 | an encoded frame decodes to itself |
| `RldpFrames.DatagramIsCanonical` | crates/node/onx-networking/src/rldp.rs:76-108 | only one datagram decodes to a frame, and every decoded frame is well formed |
| `RldpChunks.ChunksRebuildPayload` | crates/node/onx-networking/src/rldp.rs:291-299 | the chunks of a payload, joined and truncated, are the payload |
| `RldpSenders.RldpSender.New` | crates/node/onx-networking/src/rldp.rs:162-206 | the exact payloads and configurations that are accepted, and the frames made of them |
| `RldpSenders.RldpSender.NextRound` | crates/node/onx-networking/src/rldp.rs:210-229 | sends the datagrams of the specified round, never more than allowed, and moves the cursor behind the last frame looked at |
| `RldpSenders.RoundIsBounded` | crates/node/onx-networking/src/rldp.rs:210-229 | a round sends at most packets_per_round packets, all of frames not acknowledged |
| `RldpSenders.NoFrameIsForgotten` | crates/node/onx-networking/src/rldp.rs:210-229 | a frame that stays unacknowledged is sent within as many rounds as there are frames, whatever is acknowledged meanwhile |
| `RldpSenders.RoundRepeats` | crates/node/onx-networking/src/rldp.rs:210-229 | a round sends no frame more than redundancy times, none that is acknowledged or beyond its reach, and every missing one within reach exactly redundancy times unless it has used up its room |
| `RldpSenders.RldpSender.ApplyAck` | crates/node/onx-networking/src/rldp.rs:230-247 | a newer acknowledgement of this transfer with a mask of the right length takes effect: its number is kept, and a frame is acknowledged exactly if it was before or its bit is set, least significant first; a mask of another length is an error; stale and foreign ones change nothing |
| `RldpSenders.RldpSender.IsComplete` | crates/node/onx-networking/src/rldp.rs:207-209 | true exactly when no frame is missing |
| `RldpReceivers.RldpReceiver.FromFrame` | crates/node/onx-networking/src/rldp.rs:266-277 | opens exactly for consistent dimensions |
| `RldpReceivers.RldpReceiver.Ingest` | crates/node/onx-networking/src/rldp.rs:278-304 | foreign frames are errors without effect, chunks are kept once, and what is returned always has the announced digest; chunk numbers stay below the count if those of the frames are |
| `RldpReceivers.RldpReceiver.Ack` | crates/node/onx-networking/src/rldp.rs:305-316 | the bitmap marks exactly the chunks held; it panics exactly when a chunk number has no byte in the mask, which cannot happen below the chunk count |
| `RldpLinks.IngestIsRight` | crates/node/onx-networking/src/rldp.rs:278-304 | a chunk of the payload never leads to an error, and the payload is returned exactly when all chunks are there |
| `RldpLinks.TransferIsSafe` | crates/node/onx-networking/src/rldp.rs:161-317 | under loss, reordering and repetition: no side fails, acknowledged means arrived, nothing but the payload is returned, and it was returned when the sender is complete |
| `RldpLinks.TransferCompletes` | crates/node/onx-networking/src/rldp.rs:161-317 | in every run, once all chunks have arrived, any further datagram that gets through, with its acknowledgement, makes the sender complete |
| `RldpLinks.NewFullAckCompletes` | crates/node/onx-networking/src/rldp.rs:230-317 | in every run, an acknowledgement of all chunks that is newer than the last one makes the sender complete |
| `Router.PlanHypercubeRoute` | crates/protocol/onx-transactions/src/router.rs:33-99 | exact error conditions; the route is canonical, and fee and remaining value make up the amount |
| `Router.FlipBits` | crates/protocol/onx-transactions/src/router.rs:58-80 | the planned hops lead to the destination over neighbors, as many as bits differ, flipped from the most significant down |
| `Router.ValidateHypercubeRoute` | crates/protocol/onx-transactions/src/router.rs:104-121 | accepts exactly the hop sequences that lead from source to destination over neighbors |
| `Router.RoutesAreLongEnough` | crates/protocol/onx-transactions/src/router.rs:104-137 | no accepted route is shorter than the number of differing prefix bits |
| `Router.FlipIsAHop` | crates/protocol/onx-transactions/src/router.rs:124-137 | shards whose prefixes differ in one bit are neighbors |
| `BlockValidity.AcceptedExactlyFollows` | crates/protocol/onx-blocks/src/validity.rs:30-95 | a block is accepted exactly when its flags fit together, its roots are the recomputed ones, it names its parent or parents by their hashes, has the next number, and follows each parent: times not before it, and no parent that ended its shard |
| `BlockValidity.ValidateExtra` | crates/protocol/onx-blocks/src/masterchain.rs:138-150 | reports the first pair of entries that is not in strictly ascending byte order |
| `BlockValidity.OneBlockPerShard` | crates/protocol/onx-blocks/src/masterchain.rs:138-160 | a valid masterchain block commits at most one block of every shard |
| `BlockSync.AdmitKeepsSound` | crates/protocol/onx-blocks/src/sync.rs:180-238 | an admitted block keeps every block justified and replaces none |
| `BlockSync.AdmitsExactly` | crates/protocol/onx-blocks/src/sync.rs:180-238 | a candidate is admitted exactly when its role fields fit, its hash is not held, its parents are held and followed, and it is coupled to a held masterchain block through its own proof; it alone is then new in the index |
| `BlockSync.AdmitsAllExactly` | crates/protocol/onx-blocks/src/sync.rs:136-143 | a batch is admitted exactly when each candidate should be once the ones before it are in; the index then holds it and nothing else is new |
| `BlockSync.ImportInParts` | crates/protocol/onx-blocks/src/sync.rs:136-143 | a batch in two parts is accepted exactly when both parts are, one after the other, with the same result |
| `BlockSync.AncestorsAreEarlier` | crates/protocol/onx-blocks/src/sync.rs:180-238 | whatever is reached by following parents is indexed, has a smaller number and ended before; no block is its own ancestor |
| `BlockSync.EveryPathEndsAtAnchor` | crates/protocol/onx-blocks/src/sync.rs:99-238 | following parents, whichever they are, takes at most as many steps as block numbers lie between and stops exactly at trusted anchors |
| `BlockSync.ReachesAnchor` | crates/protocol/onx-blocks/src/sync.rs:99-238 | a trusted anchor is reached from every block through first parents |
| `BlockSync.BlockSyncEngine.InsertTrusted` | crates/protocol/onx-blocks/src/sync.rs:99-133 | exact acceptance condition; one anchor more, and nothing on failure |
| `BlockSync.BlockSyncEngine.ImportBatch` | crates/protocol/onx-blocks/src/sync.rs:136-143 | succeeds exactly when every candidate is admissible in its turn, and then adds all of them; otherwise nothing changes; every non-anchor block stays justified: parents held, and shard blocks committed by a held masterchain block |
| `BlockSync.BlockSyncEngine.ImportReverseBatch` | crates/protocol/onx-blocks/src/sync.rs:148-152 | the same for the batch from its end to its beginning |
| `OutputQueues.OutputQueue.Enqueue` | crates/protocol/onx-transactions/src/output_queue.rs:36-49 | appends to the lane of the pair, or rejects a time that is not later than the last queued one |
| `OutputQueues.OutputQueue.PeekNext` | crates/protocol/onx-transactions/src/output_queue.rs:57-62 | the head of the lane that is served next |
| `OutputQueues.OutputQueue.PopNext` | crates/protocol/onx-transactions/src/output_queue.rs:66-79 | removes that message, and its lane if it is the last one |
| `OutputQueues.NextIsUnique` | crates/protocol/onx-transactions/src/output_queue.rs:57-79 | which lane is served next is determined, so popping returns what peeking shows |
| `OutputQueues.NextIsEarliest` | crates/protocol/onx-transactions/src/output_queue.rs:66-79 | the served message is the earliest of all queued ones |
| `OutputQueues.OutputQueue.ValidateDeliveryOrder` | crates/protocol/onx-transactions/src/output_queue.rs:87-102 | accepts exactly the orders in which messages of a pair increase in time |
| `OutputQueues.RunsLoseNothing` | crates/protocol/onx-transactions/src/output_queue.rs:36-79 | in every run the messages of each pair leave in the order of entry and none is lost |
| `OutputQueues.ServedOrderIsAccepted` | crates/protocol/onx-transactions/src/output_queue.rs:36-102 | after any run the delivery order is accepted exactly when, of every pair, the messages that left had entered with increasing times |
| `OutputQueues.LaterEntriesAreAccepted` | crates/protocol/onx-transactions/src/output_queue.rs:36-102 | if every message enters later than all earlier ones of its pair, emptied lanes included, the delivery order is accepted; after an emptying run only then |
| `OutputQueues.EmptiedLaneForgets` | crates/protocol/onx-transactions/src/output_queue.rs:36-79 | two messages of a pair may pass through an emptied queue one after the other whatever their times; the order is accepted exactly when the second is later |
| `OutputQueues.DrainingIsOrderly` | crates/protocol/onx-transactions/src/output_queue.rs:66-102 | draining yields every lane in order, all in order of time, and is accepted |
| `OutputQueues.OutputQueue.Drain` | crates/protocol/onx-transactions/src/output_queue.rs:66-79 | popping until nothing is left ends, and what comes out is such a draining |
| `Rewards.DistributeEpochRewards` | crates/protocol/onx-economics/src/slashing.rs:58-94 | errors in the order of the sorted list, otherwise floor shares and one unit more for the first validators; rewards are the same for every order of the input |
| `Rewards.PaidInFull` | crates/protocol/onx-economics/src/slashing.rs:79-93 | the whole reward is paid if the products exceed 128 bits by at most the total stake, and not if they exceed it by more than the total stake for every validator |
| `Rewards.PaidWhenCloseEnough` | crates/protocol/onx-economics/src/slashing.rs:79-93 | never more than the reward is paid, and all of it exactly when what saturated shares leave is at most one unit a validator |
| `Rewards.FairWhenProductsFit` | crates/protocol/onx-economics/src/slashing.rs:79-93 | without saturation everything is paid, and each share is the floor share or one more |
| `Rewards.AllocatedIsClose` | crates/protocol/onx-economics/src/slashing.rs:86-92 | floor shares never exceed the reward, and without saturation leave less than one unit a validator |
| `Rewards.SaturationLosesRewards` | crates/protocol/onx-economics/src/slashing.rs:83-92 | one product beyond 128 bits by more than the total stake for every validator loses part of the reward |
| `Rewards.LargeStakeLosesRewards` | crates/protocol/onx-economics/src/slashing.rs:83-92 | a stake of 10^30 in one epoch a year is such a case |
| `Rewards.RewardsForgetOrder` | crates/protocol/onx-economics/src/slashing.rs:55-94 | rewards handed out are handed out for every order of the input, for the reward of the epoch |
| `Rewards.OrderMattersExactlyWhenMixed` | crates/protocol/onx-economics/src/slashing.rs:55-74 | the order of the input changes the outcome exactly when the smallest identifier that is repeated or without stake has an entry without stake and two with stake |
| `BitIO.Builder.AppendBits` | crates/protocol/onx-execution/src/types.rs:124-159 | exact error conditions; the contents grow by the low bits of the value, packed, with zero padding |
| `BitIO.Slice.ReadBits` | crates/protocol/onx-execution/src/types.rs:86-112 | exact error conditions; the next bits as a number, and the offset moves on |
| `BitIO.PackOneMore` | crates/protocol/onx-execution/src/types.rs:144-154 | one more bit, with a new byte when needed, is what packing the longer contents gives |
| `BitIO.NumberOfLowBits` | crates/protocol/onx-execution/src/types.rs:95-108 | what is read has the low bits of what was written and no others |
| `BitIO.ReadsReturnWrites` | crates/protocol/onx-execution/src/types.rs:87-159 | any sequence of writes is read back with the same widths |
| `BitIO.WriteThenRead` | crates/protocol/onx-execution/src/types.rs:87-159 | writes that fit, made with a builder and read with a slice, come back in order, cut to their widths |
| `Interpreters.StepKeepsBounds` | crates/protocol/onx-execution/src/interpreter.rs:69-97 | no step gives gas back, exceeds the limit, or deepens the stack beyond 1023 |
| `Interpreters.StepMakesProgress` | crates/protocol/onx-execution/src/interpreter.rs:160-736 | twice the remaining gas plus the call depth decreases with every step that continues, below the largest limit |
| `Interpreters.EveryRunHalts` | crates/protocol/onx-execution/src/interpreter.rs:738-772 | whatever the code, a run has at most twice the gas limit plus call depth continuing steps |
| `Interpreters.LimitBoundsRuns` | crates/protocol/onx-execution/src/interpreter.rs:69-78 | that bound holds for all machines exactly when the limit is below the largest 64-bit value: at that value gas saturates and a loop never ends |
| `Interpreters.SpinsForever` | crates/protocol/onx-execution/src/interpreter.rs:706-719 | three bytes of code that run for any number of steps at the largest limit |
| `Interpreters.Interpreter.Run` | crates/protocol/onx-execution/src/interpreter.rs:738-772 | ends within the bound, with the result of the last step; gas used and stack depth stay within their limits |
| `InstructionLaws.BinaryStep` | crates/protocol/onx-execution/src/interpreter.rs:297-365 | one whole step of ADD, SUB and MUL, decoded and paid for, leaves the sum, difference or product of the two top numbers when it fits 128 bits, and overflows exactly otherwise |
| `InstructionLaws.NegateStep` | crates/protocol/onx-execution/src/interpreter.rs:297-365 | NEG leaves the opposite number, and overflows exactly for the smallest one |
| `InstructionLaws.DivModStep` | crates/protocol/onx-execution/src/interpreter.rs:297-365 | DIVMOD leaves numbers q and r with q * y + r = x, r smaller than y and of the sign of x; zero overflows, and exactly one pair panics |
| `InstructionLaws.CompareStep` | crates/protocol/onx-execution/src/interpreter.rs:297-365 | CMP leaves the sign of the difference |
| `InstructionLaws.WidthIsChecked` | crates/protocol/onx-execution/src/interpreter.rs:297-303 | an arithmetic instruction is malformed for a width of 0 or more than 256 |
| `WideLaws.WideStep` | crates/protocol/onx-execution/src/interpreter.rs:375-430 | DIV rounds towards zero, SHL keeps the low 128 bits, SHR rounds down; the result is left exactly if it fits the width unsigned or signed, or else modulo the width; unsigned and wrapped results overflow for every width above 126, and signed ones panic for 128 |
| `InstructionLaws.JumpStep` | crates/protocol/onx-execution/src/interpreter.rs:626-650 | jumps and calls are taken exactly under their condition, go to the named piece of code, and a call keeps the place behind itself |
| `InstructionLaws.ReturnStep` | crates/protocol/onx-execution/src/interpreter.rs:651-663 | RET goes to the place that c0 names, which then is the innermost call still open, or ends the program |
| `InstructionLaws.IfReturnStep` | crates/protocol/onx-execution/src/interpreter.rs:692-705 | IFRET does the same exactly if the number is not zero |
| `InstructionLaws.EndOfCode` | crates/protocol/onx-execution/src/interpreter.rs:160-174 | at the end of a piece of code execution goes on behind the innermost call, or ends; neither costs gas nor changes c0 |
| `InstructionLaws.CallThenReturn` | crates/protocol/onx-execution/src/interpreter.rs:626-663 | a called piece of code that comes to its RET with the calls it found goes on behind the call, with the calls there were before |
| `InstructionLaws.IfElseStep` | crates/protocol/onx-execution/src/interpreter.rs:679-691 | goes on at the byte offset of the branch taken, yes exactly when the number is not zero, or is malformed if that is outside the code |
| `InstructionLaws.RepeatStep` | crates/protocol/onx-execution/src/interpreter.rs:706-719 | goes on at its offset for every count but zero, however often it has been there |
| `InstructionLaws.UntilStep` | crates/protocol/onx-execution/src/interpreter.rs:720-731 | goes back by its offset exactly while the number is zero |
| `OperandLaws.PickStep` | crates/protocol/onx-execution/src/interpreter.rs:222-232 | PICK copies the value below as many others as its operand says to the top |
| `OperandLaws.RollStep` | crates/protocol/onx-execution/src/interpreter.rs:233-243 | ROLL moves it there |
| `OperandLaws.TooDeep` | crates/protocol/onx-execution/src/interpreter.rs:222-243 | both are malformed for a value that is not there |
| `OperandLaws.BlockSwapStep` | crates/protocol/onx-execution/src/interpreter.rs:283-296 | BLKSWAP exchanges the two blocks on top |
| `OperandLaws.PushIntStep` | crates/protocol/onx-execution/src/interpreter.rs:244-252 | PUSHINT pushes the 32 bytes behind its sign |
| `OperandLaws.PushBytesStep` | crates/protocol/onx-execution/src/interpreter.rs:253-260 | PUSHBYTES pushes as many bytes as it says, for the price of their number |
| `OperandLaws.ConcatenateStep` | crates/protocol/onx-execution/src/interpreter.rs:446-455 | CONCAT puts the upper byte string behind the lower one, for the price of both |
| `OperandLaws.EqualBytesStep` | crates/protocol/onx-execution/src/interpreter.rs:467-474 | BYTEEQ compares two byte strings, for the price of the shorter one |
| `OperandLaws.SubBytesStep` | crates/protocol/onx-execution/src/interpreter.rs:456-466 | SUBBYTES leaves the bytes from the offset on, or is malformed if they are not there |
| `OperandLaws.IsZeroStep` | crates/protocol/onx-execution/src/interpreter.rs:366-374 | ISZERO leaves 1 exactly for the number all of whose bytes are zero, and else 0 |
| `OperandLaws.ThrowStep` | crates/protocol/onx-execution/src/interpreter.rs:664-678 | THROW raises the exception of its number |
| `OperandLaws.StoreBitsStep` | crates/protocol/onx-execution/src/interpreter.rs:490-499 | STBITS appends exactly the low bits of the number to the packed bits of a builder, or is malformed |
| `OperandLaws.StoreRefStep` | crates/protocol/onx-execution/src/interpreter.rs:500-510 | STREF appends a reference to fewer than four |
| `OperandLaws.LoadRefStep` | crates/protocol/onx-execution/src/interpreter.rs:549-565 | LDREF takes the references of a slice one after the other, and is malformed behind the last |
| `OperandLaws.LoadBitsStep` | crates/protocol/onx-execution/src/interpreter.rs:531-548 | LDU leaves the next bits as a number and moves on behind them |
| `OperandLaws.StoredNumberIsLoaded` | crates/protocol/onx-execution/src/interpreter.rs:476-548 | the program NEWC, SWAP, STBITS, ENDC, CTOS, LDU, six whole steps, loads exactly the low bits of whatever number was stored, for any width |
| `VmTypes.ConsumeGas` | crates/protocol/onx-execution/src/interpreter.rs:69-78 | for any price gas grows by exactly it, or stops at the largest counter value; an instruction that cannot be paid for uses up all gas |
| `VmTypes.NumberRoundTrip` | crates/protocol/onx-execution/src/types.rs:174-192 | 128-bit numbers survive being put on the stack |
| `InstructionLaws.NumberLayout` | crates/protocol/onx-execution/src/types.rs:174-192 | a number on the stack is sixteen bytes of its sign before its low 128 bits, most significant byte first |
| `VmLaws.ShufflingCode` | crates/protocol/onx-execution/src/interpreter.rs:160-281 | code that only moves values on the stack, decoded, paid for and executed step by step, does what its instructions do to the stack one after the other, exceptions included |
| `VmLaws.RewritingKeepsStacks` | crates/protocol/onx-execution/src/interpreter.rs:160-281 | replacing code by code of the same effect leaves the same stack or fails as before |
| `VmLaws.SameEffectInside` | crates/protocol/onx-execution/src/interpreter.rs:160-281 | equal effects stay equal inside longer code |
| `VmLaws.NipIsSwapDrop` | crates/protocol/onx-execution/src/interpreter.rs:178-269 | NIP has the effect of SWAP and DROP on every stack |
| `VmLaws.TuckIsSwapOver` | crates/protocol/onx-execution/src/interpreter.rs:193-281 | TUCK has the effect of SWAP and OVER on every stack, the depth limit included |
| `VmLaws.DivisionTowardsZero` | crates/protocol/onx-execution/src/interpreter.rs:338-349 | quotient and remainder make up the dividend, and the remainder has its sign |
| `VmLaws.WriteBitsPacks` | crates/protocol/onx-execution/src/interpreter.rs:490-499 | storing bits behind packed bits packs both and never panics |
| `VmLaws.StoredBitsAreLoaded` | crates/protocol/onx-execution/src/interpreter.rs:490-548 | what is stored in a new cell is loaded from it |

## Left out

- Cryptography: hashing, signatures, key exchange and encryption are functions and predicates about which nothing is assumed.
- Sockets, timers, remote procedure calls, command line, genesis and the wiring of the node; a clock reading or a datagram is a parameter.
- Agreement across rounds: the engine drops proposal and votes at a timeout and promises nothing across rounds.
- Exact garbage collection: counts are a lower bound, as the downward walk stops at shared cells.
- The byte layout of acknowledgements: the encoder writes a header of 42 bytes and the decoder expects 44, so acknowledgements are passed as values.
- `MerkleProof::verify`: it checks the cells of a proof but does not look at the target key its documentation mentions.
- Exception handlers (register c2) of the interpreter and the host calls that install continuations; its machines have no handler, and a host panic ends a run with its own outcome.
- A claim that register c0 mirrors the call stack: the implicit return at the end of a piece of code does not update it.
- The byte strings that proposals and votes sign; the signed content is kept as a value that separates the two kinds.
- Parsing of bags, headers, accounts and proofs from bytes, and the byte layout of cell records and storage keys.
- Split and merge announcements, load thresholds, payment channels, fee splits and admission checks.
- Partially written journals: the write of a journal is one atomic step, and a crash is modelled from then on.
- `Rewards.DistributeEpochRewards`: a product of stake and inflation rate beyond 128 bits is an error outcome, standing for the panic of checked arithmetic.
- `StateStorages.StateStorage.ReleaseCellRoot`: for a release without a matching retain only the exact change of counts is stated, as safety cannot hold then.
- `JournalTexts.JournalRoundTrip`: paths are assumed to be free of spaces and line breaks, as the family names and hexadecimal keys of the store are.
- `AccountTries.ShardStateTree.GenerateProof`: the key that the proof is asked for has no influence on the result, as in the code.
- `MessageOrder.SortForgetsOrder`: two different messages of the same time are assumed to have different hashes.
- `Consensus.OverlapNeedsExactCounting`: validator numbers are naturals and not 32-bit, so that every whole stake occurs.
- `Interpreters.Interpreter.Run`: assumes a gas limit below the largest 64-bit value, at which a run need not end.
- `Rewards.PaidInFull`: between its two bounds rounding decides; the exact condition there is that of `Rewards.PaidWhenCloseEnough`.
