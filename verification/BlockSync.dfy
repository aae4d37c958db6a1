/** The index of verified block headers (crates/protocol/onx-blocks/src/sync.rs). */
module BlockSync {
  import opened Wrappers
  import opened Bytes
  import opened Graphs
  import opened BlockValidity

  datatype SyncCandidate = SyncCandidate(header: BlockHeader, recomputed: Roots, extra: Option<MasterchainExtra>,
                                         proof: Option<Hash>)

  datatype StoredBlock = StoredBlock(header: BlockHeader, extra: Option<MasterchainExtra>)

  type Index = map<Hash, StoredBlock>

  datatype SyncError =
    | Block(error: BlocksError)
    | DuplicateBlock(hash: Hash)
    | MissingParent(hash: Hash)
    | MissingMasterchainProof(hash: Hash)
    | MissingMasterchainExtra
    | UnexpectedMasterchainExtra
    | MissingCanonicalityProof
    | UnexpectedCanonicalityProof
    | InvalidCanonicalityProof(hash: Hash)

  function AsSync(r: Result<(), BlocksError>): Result<(), SyncError> {
    match r
    case Ok(_) => Ok(())
    case Err(e) => Err(Block(e))
  }

  function ValidateRoleFields(c: SyncCandidate): Result<(), SyncError> {
    if IsMasterchain(c.header) then
      if c.extra.None? then Err(MissingMasterchainExtra)
      else
        var _ :- AsSync(ExtraOutcome(c.extra.value.entries));
        if c.proof.Some? then Err(UnexpectedCanonicalityProof) else Ok(())
    else if c.extra.Some? then Err(UnexpectedMasterchainExtra)
    else if c.proof.None? then Err(MissingCanonicalityProof)
    else Ok(())
  }

  /** The held parents of a candidate. */
  function Parents(blocks: Index, header: BlockHeader): Result<(BlockHeader, Option<BlockHeader>), SyncError> {
    if header.prevRef !in blocks then Err(MissingParent(header.prevRef))
    else if !IsMergeResult(header.flags) then Ok((blocks[header.prevRef].header, None))
    else if header.prevRef2 !in blocks then Err(MissingParent(header.prevRef2))
    else Ok((blocks[header.prevRef].header, Some(blocks[header.prevRef2].header)))
  }

  function ValidateCanonicality(hash: BlockHash, blocks: Index, c: SyncCandidate, proof: Hash): Result<(), SyncError> {
    if c.header.masterRef !in blocks then Err(MissingMasterchainProof(c.header.masterRef))
    else
      var _ :- AsSync(ValidateMasterRef(hash, c.header, Some(blocks[c.header.masterRef].header)));
      if proof !in blocks then Err(MissingMasterchainProof(proof))
      else if blocks[proof].extra.None? then Err(MissingMasterchainExtra)
      else if !blocks[proof].extra.value.Commits(c.header.shard, hash(c.header), c.header.seqNo)
        then Err(InvalidCanonicalityProof(proof))
      else Ok(())
  }

  /** The index after a candidate has passed all checks. */
  function Admit(hash: BlockHash, blocks: Index, c: SyncCandidate): Result<Index, SyncError> {
    var _ :- ValidateRoleFields(c);
    var h := hash(c.header);
    if h in blocks then Err(DuplicateBlock(h))
    else
      var parents :- Parents(blocks, c.header);
      var _ :- AsSync(ValidateSuccessor(hash, c.header, parents.0, parents.1, c.recomputed));
      var _ :- if IsMasterchain(c.header) then AsSync(ValidateMasterRef(hash, c.header, None))
               else if c.proof.None? then Err(MissingCanonicalityProof)
               else ValidateCanonicality(hash, blocks, c, c.proof.value);
      Ok(blocks[h := StoredBlock(c.header, c.extra)])
  }

  function AdmitAll(hash: BlockHash, blocks: Index, batch: seq<SyncCandidate>): Result<Index, SyncError>
    decreases |batch|
  {
    if batch == [] then Ok(blocks)
    else
      var next :- Admit(hash, blocks, batch[0]);
      AdmitAll(hash, next, batch[1..])
  }

  lemma ExtendsOn(a: Index, b: Index, c: Index)
    requires Extends(a, b) && Extends(b, c)
    ensures Extends(a, c)
  {
  }

  lemma ExtendsItself(a: Index)
    ensures Extends(a, a)
  {
  }

  lemma AdmitsFirst(hash: BlockHash, blocks: Index, batch: seq<SyncCandidate>)
    requires batch != []
    ensures
      var next := Admit(hash, blocks, batch[0]);
      AdmitAll(hash, blocks, batch) == if next.Err? then Err(next.error) else AdmitAll(hash, next.value, batch[1..])
  {
    hide Admit;
  }

  lemma AdmitsNone(hash: BlockHash, blocks: Index)
    ensures AdmitAll(hash, blocks, []) == Ok(blocks)
  {
  }

  /** A batch in two parts is as good as the two parts one after the other. */
  lemma {:induction false} ImportInParts(hash: BlockHash, blocks: Index, a: seq<SyncCandidate>, b: seq<SyncCandidate>)
    ensures
      var first := AdmitAll(hash, blocks, a);
      AdmitAll(hash, blocks, a + b) == if first.Ok? then AdmitAll(hash, first.value, b) else first
    decreases |a|
  {
    if a == [] {
      assert a + b == b;
    } else {
      assert (a + b)[0] == a[0] && (a + b)[1..] == a[1..] + b;
      var next := Admit(hash, blocks, a[0]);
      if next.Ok? {
        ImportInParts(hash, next.value, a[1..], b);
      }
    }
  }

  // ---------- The index in every reachable state ----------

  ghost predicate WellKept(hash: BlockHash, h: Hash, b: StoredBlock) {
    && hash(b.header) == h
    && (b.extra.Some? <==> IsMasterchain(b.header))
    && (b.extra.Some? ==> ExtraOutcome(b.extra.value.entries).Ok?)
  }

  /** The parents of a block are held, and it follows them. */
  ghost predicate Descends(blocks: Index, header: BlockHeader) {
    match Parents(blocks, header)
    case Err(_) => false
    case Ok((parent, parent2)) =>
      && Numbered(header, parent, parent2) && Follows(header, parent)
      && (parent2.Some? ==> Follows(header, parent2.value))
  }

  ghost predicate CommittedBy(blocks: Index, header: BlockHeader, h: Hash, proof: Hash) {
    proof in blocks && blocks[proof].extra.Some? && blocks[proof].extra.value.Commits(header.shard, h, header.seqNo)
  }

  /** A masterchain block refers to none; a shard block refers to one and is committed by one, both of them held. */
  ghost predicate Coupled(blocks: Index, header: BlockHeader, h: Hash) {
    if IsMasterchain(header) then header.masterRef == ZERO_HASH
    else
      && header.masterRef in blocks && IsMasterchain(blocks[header.masterRef].header)
      && exists proof :: CommittedBy(blocks, header, h, proof)
  }

  ghost predicate Justified(blocks: Index, h: Hash)
    requires h in blocks
  {
    Descends(blocks, blocks[h].header) && Coupled(blocks, blocks[h].header, h)
  }

  ghost predicate Sound(hash: BlockHash, blocks: Index, anchors: set<Hash>) {
    forall h :: h in blocks ==> WellKept(hash, h, blocks[h]) && (h in anchors || Justified(blocks, h))
  }

  ghost predicate Extends(blocks: Index, larger: Index) {
    forall h :: h in blocks ==> h in larger && larger[h] == blocks[h]
  }

  lemma JustifiedInLarger(blocks: Index, larger: Index, h: Hash)
    requires h in blocks && Justified(blocks, h) && Extends(blocks, larger)
    ensures Justified(larger, h)
  {
    var header := blocks[h].header;
    if !IsMasterchain(header) {
      var proof :| CommittedBy(blocks, header, h, proof);
      assert CommittedBy(larger, header, h, proof);
    }
  }

  lemma AdmittedDescends(hash: BlockHash, blocks: Index, c: SyncCandidate)
    requires Admit(hash, blocks, c).Ok?
    ensures Descends(blocks, c.header)
  {
    var parents := Parents(blocks, c.header).value;
    AcceptedExactlyFollows(hash, c.header, parents.0, parents.1, c.recomputed);
  }

  lemma AdmittedIsCoupled(hash: BlockHash, blocks: Index, c: SyncCandidate)
    requires Admit(hash, blocks, c).Ok?
    ensures Coupled(blocks, c.header, hash(c.header))
  {
    if !IsMasterchain(c.header) {
      assert CommittedBy(blocks, c.header, hash(c.header), c.proof.value);
    }
  }

  lemma AdmitKeepsSound(hash: BlockHash, blocks: Index, anchors: set<Hash>, c: SyncCandidate)
    requires Sound(hash, blocks, anchors) && Admit(hash, blocks, c).Ok?
    ensures Sound(hash, Admit(hash, blocks, c).value, anchors) && Extends(blocks, Admit(hash, blocks, c).value)
  {
    var larger := Admit(hash, blocks, c).value;
    var added := hash(c.header);
    AdmittedDescends(hash, blocks, c);
    AdmittedIsCoupled(hash, blocks, c);
    forall h | h in larger
      ensures WellKept(hash, h, larger[h]) && (h in anchors || Justified(larger, h))
    {
      if h == added {
        DescendsInLarger(blocks, larger, c.header);
        CoupledInLarger(blocks, larger, c.header, h);
      } else if h !in anchors {
        JustifiedInLarger(blocks, larger, h);
      }
    }
  }

  lemma DescendsInLarger(blocks: Index, larger: Index, header: BlockHeader)
    requires Descends(blocks, header) && Extends(blocks, larger)
    ensures Descends(larger, header)
  {
  }

  lemma CoupledInLarger(blocks: Index, larger: Index, header: BlockHeader, h: Hash)
    requires Coupled(blocks, header, h) && Extends(blocks, larger)
    ensures Coupled(larger, header, h)
  {
    if !IsMasterchain(header) {
      var proof :| CommittedBy(blocks, header, h, proof);
      assert CommittedBy(larger, header, h, proof);
    }
  }

  // ---------- What is admitted ----------

  /** A masterchain block brings its sorted entries, a shard block the block that commits it. */
  predicate RolesFit(c: SyncCandidate) {
    if IsMasterchain(c.header) then c.extra.Some? && ExtraOutcome(c.extra.value.entries).Ok? && c.proof.None?
    else c.extra.None? && c.proof.Some?
  }

  /** The parents that the header names are held and followed, with its own roots those recomputed. */
  ghost predicate HasParents(blocks: Index, c: SyncCandidate) {
    var header, merged := c.header, IsMergeResult(c.header.flags);
    && FlagsFit(header.flags) && header.roots == c.recomputed
    && header.prevRef in blocks && (merged ==> header.prevRef2 in blocks)
    && var parent := blocks[header.prevRef].header;
    && var parent2 := if merged then Some(blocks[header.prevRef2].header) else None;
    && Follows(header, parent) && Numbered(header, parent, parent2)
    && (merged ==> Follows(header, parent2.value))
  }

  /** A masterchain block refers to none; a shard block refers to a held one and is committed by the one it names. */
  ghost predicate IsCanonical(hash: BlockHash, blocks: Index, c: SyncCandidate) {
    if IsMasterchain(c.header) then c.header.masterRef == ZERO_HASH
    else
      && c.header.masterRef in blocks && IsMasterchain(blocks[c.header.masterRef].header)
      && c.proof.Some? && CommittedBy(blocks, c.header, hash(c.header), c.proof.value)
  }

  ghost predicate Admissible(hash: BlockHash, blocks: Index, c: SyncCandidate) {
    RolesFit(c) && hash(c.header) !in blocks && HasParents(blocks, c) && IsCanonical(hash, blocks, c)
  }

  ghost predicate HashesRight(hash: BlockHash, blocks: Index) {
    forall h :: h in blocks ==> hash(blocks[h].header) == h
  }

  lemma RolesExactlyFit(c: SyncCandidate)
    ensures ValidateRoleFields(c).Ok? <==> RolesFit(c)
  {
  }

  lemma ParentsExactlyHeld(hash: BlockHash, blocks: Index, c: SyncCandidate)
    requires HashesRight(hash, blocks)
    ensures HasParents(blocks, c) <==>
      && Parents(blocks, c.header).Ok?
      && var parents := Parents(blocks, c.header).value;
         ValidateSuccessor(hash, c.header, parents.0, parents.1, c.recomputed).Ok?
  {
    hide ValidateSuccessor, Follows, FlagsFit, IsMergeResult;
    if Parents(blocks, c.header).Ok? {
      var parents := Parents(blocks, c.header).value;
      AcceptedExactlyFollows(hash, c.header, parents.0, parents.1, c.recomputed);
    }
  }

  lemma CanonicalExactly(hash: BlockHash, blocks: Index, c: SyncCandidate)
    requires HashesRight(hash, blocks) && RolesFit(c)
    ensures IsCanonical(hash, blocks, c) <==>
      if IsMasterchain(c.header) then ValidateMasterRef(hash, c.header, None).Ok?
      else ValidateCanonicality(hash, blocks, c, c.proof.value).Ok?
  {
  }

  /** A candidate is admitted exactly when it should be, and then it alone is new in the index. */
  lemma AdmitsExactly(hash: BlockHash, blocks: Index, c: SyncCandidate)
    requires HashesRight(hash, blocks)
    ensures Admit(hash, blocks, c).Ok? <==> Admissible(hash, blocks, c)
    ensures Admissible(hash, blocks, c) ==>
      Admit(hash, blocks, c).value == blocks[hash(c.header) := StoredBlock(c.header, c.extra)]
  {
    hide ValidateSuccessor, ValidateCanonicality, ValidateMasterRef, HasParents, IsCanonical, RolesFit,
      ValidateRoleFields, Parents;
    RolesExactlyFit(c);
    ParentsExactlyHeld(hash, blocks, c);
    if RolesFit(c) {
      CanonicalExactly(hash, blocks, c);
      if !IsMasterchain(c.header) {
        ProofIsThere(c);
      }
    }
  }

  lemma ProofIsThere(c: SyncCandidate)
    requires RolesFit(c) && !IsMasterchain(c.header)
    ensures c.proof.Some?
  {
  }

  /** Each candidate is admissible once those before it are in the index. */
  ghost predicate AllAdmissible(hash: BlockHash, blocks: Index, batch: seq<SyncCandidate>)
    decreases |batch|
  {
    batch == [] || (Admissible(hash, blocks, batch[0]) && AllAdmissible(hash, WithAll(hash, blocks, batch[..1]),
      batch[1..]))
  }

  /** The index with the blocks of a batch. */
  function WithAll(hash: BlockHash, blocks: Index, batch: seq<SyncCandidate>): Index {
    if batch == [] then blocks
    else
      var last := batch[|batch| - 1];
      WithAll(hash, blocks, batch[..|batch| - 1])[hash(last.header) := StoredBlock(last.header, last.extra)]
  }

  lemma {:induction false} WithAllInParts(hash: BlockHash, blocks: Index, c: SyncCandidate, rest: seq<SyncCandidate>)
    ensures WithAll(hash, WithAll(hash, blocks, [c]), rest) == WithAll(hash, blocks, [c] + rest)
  {
    if rest != [] {
      assert ([c] + rest)[..|rest|] == [c] + rest[..|rest| - 1];
      WithAllInParts(hash, blocks, c, rest[..|rest| - 1]);
    } else {
      assert [c] + rest == [c];
    }
  }

  lemma WithOne(hash: BlockHash, blocks: Index, c: SyncCandidate)
    ensures WithAll(hash, blocks, [c]) == blocks[hash(c.header) := StoredBlock(c.header, c.extra)]
  {
    assert [c][..0] == [];
  }

  /** A batch is admitted exactly when each of its candidates should be, in its turn. */
  lemma {:induction false} AdmitsAllExactly(hash: BlockHash, blocks: Index, batch: seq<SyncCandidate>)
    requires HashesRight(hash, blocks)
    ensures AdmitAll(hash, blocks, batch).Ok? <==> AllAdmissible(hash, blocks, batch)
    ensures AllAdmissible(hash, blocks, batch) ==> AdmitAll(hash, blocks, batch).value == WithAll(hash, blocks, batch)
    decreases |batch|
  {
    hide Admit, Admissible;
    if batch != [] {
      AdmitsExactly(hash, blocks, batch[0]);
      WithOne(hash, blocks, batch[0]);
      assert batch[..1] == [batch[0]] && [batch[0]] + batch[1..] == batch;
      AdmitsAllExactly(hash, WithAll(hash, blocks, batch[..1]), batch[1..]);
      WithAllInParts(hash, blocks, batch[0], batch[1..]);
    }
  }

  lemma SoundHashes(hash: BlockHash, blocks: Index, anchors: set<Hash>)
    requires Sound(hash, blocks, anchors)
    ensures HashesRight(hash, blocks)
  {
  }

  // ---------- Following parents ----------

  /** The references that lead from a block to its parents; nothing is asked of anchors. */
  function ParentGraph(blocks: Index, anchors: set<Hash>): Graph<Hash> {
    map h | h in blocks :: ParentRefs(blocks[h].header, h in anchors)
  }

  function ParentRefs(header: BlockHeader, trusted: bool): seq<Hash> {
    if trusted then [] else if IsMergeResult(header.flags) then [header.prevRef, header.prevRef2] else [header.prevRef]
  }

  lemma EdgeFollows(hash: BlockHash, blocks: Index, anchors: set<Hash>, h: Hash, p: Hash)
    requires Sound(hash, blocks, anchors) && Edge(ParentGraph(blocks, anchors), h, p)
    ensures h in blocks && h !in anchors && p in blocks && Follows(blocks[h].header, blocks[p].header)
  {
    assert Justified(blocks, h);
  }

  /** v is an ancestor of u: it is held, has a smaller number, and ended before u began. */
  ghost predicate IsEarlier(blocks: Index, v: Hash, u: Hash) {
    v in blocks && u in blocks && blocks[v].header.seqNo < blocks[u].header.seqNo
      && blocks[v].header.endLt <= blocks[u].header.startLt
  }

  lemma TailIsPath(g: Graph<Hash>, p: seq<Hash>)
    requires IsPath(g, p) && |p| > 1
    ensures IsPath(g, p[1..])
  {
    var q := p[1..];
    forall i | 0 <= i < |q| - 1
      ensures Edge(g, q[i], q[i + 1])
    {
      assert Edge(g, p[i + 1], p[i + 1 + 1]);
    }
  }

  lemma {:induction false} PathGoesBack(hash: BlockHash, blocks: Index, anchors: set<Hash>, p: seq<Hash>)
    requires Sound(hash, blocks, anchors) && IsPath(ParentGraph(blocks, anchors), p) && |p| > 1
    ensures IsEarlier(blocks, p[|p| - 1], p[0])
    decreases |p|
  {
    var g := ParentGraph(blocks, anchors);
    assert Edge(g, p[0], p[1]);
    EdgeFollows(hash, blocks, anchors, p[0], p[1]);
    if |p| > 2 {
      assert Edge(g, p[1], p[2]);
      EdgeFollows(hash, blocks, anchors, p[1], p[2]);
      TailIsPath(g, p);
      PathGoesBack(hash, blocks, anchors, p[1..]);
    }
  }

  /** Whatever is reached by following parents is held and lies before; no block is its own ancestor. */
  lemma AncestorsAreEarlier(hash: BlockHash, blocks: Index, anchors: set<Hash>, u: Hash, v: Hash)
    requires Sound(hash, blocks, anchors) && u in blocks && Reaches(ParentGraph(blocks, anchors), u, v)
    ensures u == v || IsEarlier(blocks, v, u)
    ensures !ReachesProperly(ParentGraph(blocks, anchors), u, u)
  {
    var g := ParentGraph(blocks, anchors);
    var p :| IsPath(g, p) && p[0] == u && p[|p| - 1] == v;
    if |p| > 1 {
      PathGoesBack(hash, blocks, anchors, p);
    }
    if ReachesProperly(g, u, u) {
      var w :| Edge(g, u, w) && Reaches(g, w, u);
      var q :| IsPath(g, q) && q[0] == w && q[|q| - 1] == u;
      var cycle := [u] + q;
      assert IsPath(g, cycle);
      PathGoesBack(hash, blocks, anchors, cycle);
      assert false;
    }
  }

  lemma FirstParent(hash: BlockHash, blocks: Index, anchors: set<Hash>, h: Hash) returns (parent: Hash)
    requires Sound(hash, blocks, anchors) && h in blocks && h !in anchors
    ensures parent in blocks && blocks[parent].header.seqNo < blocks[h].header.seqNo
    ensures Edge(ParentGraph(blocks, anchors), h, parent)
  {
    parent := blocks[h].header.prevRef;
    assert Justified(blocks, h);
    assert ParentGraph(blocks, anchors)[h][0] == parent;
    EdgeFollows(hash, blocks, anchors, h, parent);
  }

  /** Following parents, whichever they are, takes at most as many steps as numbers lie between, and it can go
      on exactly until a trusted anchor is reached. */
  lemma {:induction false} EveryPathEndsAtAnchor(hash: BlockHash, blocks: Index, anchors: set<Hash>, p: seq<Hash>)
    requires Sound(hash, blocks, anchors) && IsPath(ParentGraph(blocks, anchors), p) && p[0] in blocks
    ensures
      var last := p[|p| - 1];
      && last in blocks && |p| <= blocks[p[0]].header.seqNo - blocks[last].header.seqNo + 1
      && ((forall w :: !Edge(ParentGraph(blocks, anchors), last, w)) <==> last in anchors)
    decreases |p|
  {
    var g := ParentGraph(blocks, anchors);
    if |p| == 1 {
      if p[0] !in anchors {
        var parent := FirstParent(hash, blocks, anchors, p[0]);
      }
    } else {
      assert Edge(g, p[0], p[1]);
      EdgeFollows(hash, blocks, anchors, p[0], p[1]);
      TailIsPath(g, p);
      EveryPathEndsAtAnchor(hash, blocks, anchors, p[1..]);
    }
  }

  lemma ReachesThrough(g: Graph<Hash>, h: Hash, parent: Hash, anchor: Hash)
    requires Edge(g, h, parent) && Reaches(g, parent, anchor)
    ensures Reaches(g, h, anchor)
  {
    ReachesSelf(g, h);
    ReachesStep(g, h, h, parent);
    ReachesTransitive(g, h, parent, anchor);
  }

  /** Following first parents leads to a trusted anchor. */
  lemma {:induction false} ReachesAnchor(hash: BlockHash, blocks: Index, anchors: set<Hash>, h: Hash)
    returns (anchor: Hash)
    requires Sound(hash, blocks, anchors) && h in blocks
    ensures anchor in anchors && anchor in blocks && Reaches(ParentGraph(blocks, anchors), h, anchor)
    decreases blocks[h].header.seqNo
  {
    var g := ParentGraph(blocks, anchors);
    if h in anchors {
      ReachesSelf(g, h);
      anchor := h;
    } else {
      var parent := FirstParent(hash, blocks, anchors, h);
      anchor := ReachesAnchor(hash, blocks, anchors, parent);
      ReachesThrough(g, h, parent, anchor);
    }
  }

  // ---------- The engine ----------

  function Reversed(batch: seq<SyncCandidate>): (r: seq<SyncCandidate>)
    ensures |r| == |batch| && forall i :: 0 <= i < |batch| ==> r[i] == batch[|batch| - 1 - i]
  {
    seq(|batch|, i requires 0 <= i < |batch| => batch[|batch| - 1 - i])
  }

  class BlockSyncEngine {
    const blockHash: BlockHash
    var blocks: Index
    /** The blocks that were inserted without checking their ancestry. */
    ghost var anchors: set<Hash>

    ghost predicate Valid()
      reads this
    {
      anchors <= blocks.Keys && Sound(blockHash, blocks, anchors)
    }

    constructor (blockHash: BlockHash)
      ensures Valid() && blocks == map[] && anchors == {} && this.blockHash == blockHash
    {
      this.blockHash, blocks, anchors := blockHash, map[], {};
    }

    method InsertTrusted(header: BlockHeader, extra: Option<MasterchainExtra>) returns (r: Result<(), SyncError>)
      requires Valid()
      modifies this
      ensures Valid()
      ensures r.Ok? <==>
        && (extra.Some? <==> IsMasterchain(header)) && (extra.Some? ==> ExtraOutcome(extra.value.entries).Ok?)
        && blockHash(header) !in old(blocks)
      ensures r.Ok? ==> blocks == old(blocks)[blockHash(header) := StoredBlock(header, extra)]
                        && anchors == old(anchors) + {blockHash(header)}
      ensures r.Err? ==> blocks == old(blocks) && anchors == old(anchors)
    {
      var candidate := SyncCandidate(header, header.roots, extra, if IsMasterchain(header) then None
        else Some(ZERO_HASH));
      var roles := ValidateRoleFields(candidate);
      if roles.Err? {
        return Err(roles.error);
      }
      var hash := blockHash(header);
      if hash in blocks {
        return Err(DuplicateBlock(hash));
      }
      blocks := blocks[hash := StoredBlock(header, extra)];
      anchors := anchors + {hash};
      forall h | h in blocks
        ensures WellKept(blockHash, h, blocks[h]) && (h in anchors || Justified(blocks, h))
      {
        if h !in anchors {
          JustifiedInLarger(old(blocks), blocks, h);
        }
      }
      return Ok(());
    }

    /** All of a batch or nothing of it. */
    method ImportBatch(batch: seq<SyncCandidate>) returns (r: Result<(), SyncError>)
      requires Valid()
      modifies this`blocks
      ensures Valid() && Extends(old(blocks), blocks)
      ensures match AdmitAll(blockHash, old(blocks), batch)
              case Ok(index) => r == Ok(()) && blocks == index
              case Err(e) => r == Err(e) && blocks == old(blocks)
      ensures r.Ok? <==> AllAdmissible(blockHash, old(blocks), batch)
      ensures r.Ok? ==> blocks == WithAll(blockHash, old(blocks), batch)
    {
      SoundHashes(blockHash, blocks, anchors);
      AdmitsAllExactly(blockHash, blocks, batch);
      ExtendsItself(blocks);
      hide Admit, AdmitAll, AllAdmissible, WithAll, Sound, Extends;
      var staged := blocks;
      for i := 0 to |batch|
        invariant Sound(blockHash, staged, anchors) && Extends(blocks, staged) && blocks == old(blocks)
        invariant AdmitAll(blockHash, staged, batch[i..]) == AdmitAll(blockHash, blocks, batch)
      {
        AdmitsFirst(blockHash, staged, batch[i..]);
        var next := Admit(blockHash, staged, batch[i]);
        if next.Err? {
          return Err(next.error);
        }
        AdmitKeepsSound(blockHash, staged, anchors, batch[i]);
        ExtendsOn(blocks, staged, next.value);
        staged := next.value;
        assert batch[i..][1..] == batch[i + 1..];
      }
      AdmitsNone(blockHash, staged);
      blocks := staged;
      return Ok(());
    }

    method ImportReverseBatch(batch: seq<SyncCandidate>) returns (r: Result<(), SyncError>)
      requires Valid()
      modifies this`blocks
      ensures Valid() && Extends(old(blocks), blocks)
      ensures match AdmitAll(blockHash, old(blocks), Reversed(batch))
              case Ok(index) => r == Ok(()) && blocks == index
              case Err(e) => r == Err(e) && blocks == old(blocks)
      ensures r.Ok? <==> AllAdmissible(blockHash, old(blocks), Reversed(batch))
      ensures r.Ok? ==> blocks == WithAll(blockHash, old(blocks), Reversed(batch))
    {
      r := ImportBatch(Reversed(batch));
    }
  }
}
