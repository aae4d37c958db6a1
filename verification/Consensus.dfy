/**
 The round-based consensus engine of one shard height
 (crates/protocol/onx-consensus/src/engine.rs).

 Signatures are checked by an arbitrary function of key, signed content and signature.  The
 content is kept as a value; in the source it is a byte string of fixed layout with a prefix
 that separates proposals from votes.
 */
module Consensus {
  import opened Wrappers
  import opened Bytes
  import opened ShardIdents
  import opened Stakes
  import opened Modular

  datatype VotePhase = PreVote | PreCommit | Commit

  datatype Step = AwaitProposal | PreVoting | PreCommitting | Committing | Finalized

  datatype ConsensusError =
    | DuplicateCandidate
    | EmptyValidatorSet
    | InvalidSignature
    | DuplicateValidatorSignature
    | UnknownValidator
    | InvalidLeader
    | InvalidRound
    | InvalidStep
    | ConflictingProposal

  type BlockHash = nat
  type PublicKey = nat
  type Signature = nat

  datatype Content =
    | ProposalContent(shard: ShardIdent, height: u64, round: u32, blockHash: BlockHash)
    | VoteContent(shard: ShardIdent, height: u64, round: u32, phase: VotePhase, blockHash: BlockHash)

  type Verifier = (PublicKey, Content, Signature) -> bool

  datatype Validator = Validator(key: PublicKey, stake: u64)

  datatype Proposal = Proposal(height: u64, round: u32, blockHash: BlockHash, proposer: nat, signature: Signature)

  datatype Vote = Vote(height: u64, round: u32, phase: VotePhase, blockHash: BlockHash, validator: nat,
    signature: Signature)

  type Bucket = map<nat, Vote>

  datatype FinalizedBlock = FinalizedBlock(height: u64, round: u32, blockHash: BlockHash, commitVotes: Bucket)

  /** What an engine knows of its current round. */
  datatype View = View(round: u32, step: Step, proposal: Option<Proposal>, votes: map<VotePhase, Bucket>,
                       finalized: Option<FinalizedBlock>)

  datatype Timeouts = Timeouts(proposal: u64, prevote: u64, precommit: u64, commit: u64)

  function Rank(phase: VotePhase): nat {
    match phase
    case PreVote => 1
    case PreCommit => 2
    case Commit => 3
  }

  /** The phase whose votes a step collects. */
  function PhaseOf(step: Step): Option<VotePhase> {
    match step
    case PreVoting => Some(PreVote)
    case PreCommitting => Some(PreCommit)
    case Committing => Some(Commit)
    case _ => None
  }

  function StepAfter(phase: VotePhase): Step {
    match phase
    case PreVote => PreCommitting
    case PreCommit => Committing
    case Commit => Finalized
  }

  /** How many phases a step has behind it. */
  function Passed(step: Step): nat {
    match step
    case AwaitProposal => 0
    case PreVoting => 0
    case PreCommitting => 1
    case Committing => 2
    case Finalized => 3
  }

  function StakesOf(validators: map<nat, Validator>): map<nat, nat> {
    map id | id in validators :: validators[id].stake
  }

  function SaturatingAdd(a: u64, b: u64): u64 {
    if a + b > U64_MAX then U64_MAX else a + b
  }

  function Saturated(n: nat): u64 {
    if n > U64_MAX then U64_MAX else n
  }

  /** The stake of ids, added up the way the engine does. */
  ghost function CountedStake(validators: map<nat, Validator>, ids: set<nat>): u64 {
    Saturated(StakeOf(StakesOf(validators), ids))
  }

  ghost function TotalStake(validators: map<nat, Validator>): nat {
    StakeOf(StakesOf(validators), validators.Keys)
  }

  ghost predicate IsQuorum(validators: map<nat, Validator>, ids: set<nat>) {
    3 * CountedStake(validators, ids) >= 2 * CountedStake(validators, validators.Keys)
  }

  function BucketOf(votes: map<VotePhase, Bucket>, phase: VotePhase): Bucket {
    if phase in votes then votes[phase] else map[]
  }

  ghost predicate Ascending(ids: seq<nat>) {
    forall i, j :: 0 <= i < j < |ids| ==> ids[i] < ids[j]
  }

  method Least(s: set<nat>) returns (least: nat)
    requires s != {}
    ensures least in s && forall y :: y in s ==> least <= y
  {
    least :| least in s;
    var rest := s - {least};
    while rest != {}
      invariant rest <= s && least in s
      invariant forall z :: z in s && z !in rest ==> least <= z
      decreases |rest|
    {
      var y :| y in rest;
      if y < least {
        least := y;
      }
      rest := rest - {y};
    }
  }

  method InOrder(ids: set<nat>) returns (order: seq<nat>)
    ensures Ascending(order) && |order| == |ids| && forall x :: x in order <==> x in ids
  {
    order := [];
    var rest := ids;
    while rest != {}
      invariant rest <= ids && Ascending(order) && |order| + |rest| == |ids|
      invariant forall x :: x in order <==> x in ids - rest
      invariant forall i, y :: 0 <= i < |order| && y in rest ==> order[i] < y
      decreases |rest|
    {
      var least := Least(rest);
      order := order + [least];
      rest := rest - {least};
    }
  }

  function Position(round: nat, n: nat): (p: nat)
    requires n > 0
    ensures p < n
  {
    round % n
  }

  /** The position that leads i rounds later. */
  function PositionAfter(round: nat, n: nat, i: nat): nat
    requires n > 0
  {
    Position(round + i, n)
  }

  lemma PositionOfSum(round: nat, n: nat, j: nat)
    requires j < n
    ensures
      var r := Position(round, n);
      && (r + j < n ==> PositionAfter(round, n, j) == r + j)
      && (r + j >= n ==> PositionAfter(round, n, j) + n == r + j)
  {
    var q, r := round / n, Position(round, n);
    assert round == n * q + r;
    if r + j < n {
      RemainderIs(round + j, q, n, r + j);
    } else {
      assert n * (q + 1) == n * q + n;
      RemainderIs(round + j, q + 1, n, r + j - n);
    }
  }

  /** In any n consecutive rounds each of n positions comes up exactly once. */
  lemma EachLeadsOnce(round: nat, n: nat, k: nat) returns (i: nat)
    requires k < n
    ensures i < n && PositionAfter(round, n, i) == k
    ensures forall j :: 0 <= j < n && PositionAfter(round, n, j) == k ==> j == i
  {
    var r := Position(round, n);
    i := if k >= r then k - r else k + n - r;
    PositionOfSum(round, n, i);
    forall j | 0 <= j < n && PositionAfter(round, n, j) == k
      ensures j == i
    {
      PositionOfSum(round, n, j);
    }
  }

  ghost function Below(ids: set<nat>, id: nat): set<nat> {
    set x | x in ids && x < id
  }

  /** Of ascending ids, as many are smaller as stand before. */
  lemma {:induction false} BeforeAreBelow(order: seq<nat>, ids: set<nat>, i: nat)
    requires Ascending(order) && (forall x :: x in order <==> x in ids) && i < |order|
    ensures |Below(ids, order[i])| == i
  {
    if i == 0 {
      assert Below(ids, order[0]) == {};
    } else {
      BeforeAreBelow(order, ids, i - 1);
      assert Below(ids, order[i]) == Below(ids, order[i - 1]) + {order[i - 1]};
    }
  }

  type Candidates = seq<(nat, Validator)>

  ghost function EntriesOf(list: Candidates): map<nat, Validator> {
    if list == [] then map[] else EntriesOf(list[..|list| - 1])[list[|list| - 1].0 := list[|list| - 1].1]
  }

  /** Some entry names a validator that an earlier one named. */
  ghost predicate HasDuplicate(list: Candidates) {
    list != [] && (HasDuplicate(list[..|list| - 1]) || list[|list| - 1].0 in EntriesOf(list[..|list| - 1]))
  }

  lemma {:induction false} DuplicateStays(list: Candidates, i: nat)
    requires i <= |list| && HasDuplicate(list[..i])
    ensures HasDuplicate(list)
    decreases |list|
  {
    if i < |list| {
      assert list[..|list| - 1][..i] == list[..i];
      DuplicateStays(list[..|list| - 1], i);
    } else {
      assert list[..i] == list;
    }
  }

  lemma OneMoreCandidate(list: Candidates, i: nat)
    requires i < |list| && !HasDuplicate(list[..i])
    ensures HasDuplicate(list[..i + 1]) <==> list[i].0 in EntriesOf(list[..i])
    ensures HasDuplicate(list[..i + 1]) ==> HasDuplicate(list)
    ensures EntriesOf(list[..i + 1]) == EntriesOf(list[..i])[list[i].0 := list[i].1]
    ensures forall x :: x in list[..i + 1] <==> x in list[..i] || x == list[i]
  {
    assert list[..i + 1][..i] == list[..i];
    if HasDuplicate(list[..i + 1]) {
      DuplicateStays(list, i + 1);
    }
  }

  class ConsensusEngine {
    const verify: Verifier
    const shard: ShardIdent
    const height: u64
    const validators: map<nat, Validator>
    /** The validator ids, ascending. */
    const order: seq<nat>
    const totalStake: u64
    const timeouts: Timeouts
    var roundStartedAt: u64
    var round: u32
    var step: Step
    var proposal: Option<Proposal>
    var votes: map<VotePhase, Bucket>
    var finalized: Option<FinalizedBlock>

    ghost predicate WellFormed() {
      && order != [] && Ascending(order) && (forall x :: x in order <==> x in validators)
      && |order| == |validators|
      && totalStake == CountedStake(validators, validators.Keys) && totalStake > 0
    }

    function LeaderOf(r: nat): nat
      requires order != []
    {
      order[Position(r, |order|)]
    }

    /** The validator leads in the round: as many validators have smaller numbers as is left of the round
        after division by their number. */
    ghost predicate Leads(r: nat, id: nat) {
      id in validators && |validators| > 0 && |Below(validators.Keys, id)| == r % |validators|
    }

    /** The validator leads i rounds after round r. */
    ghost predicate LeadsAfter(r: nat, i: nat, id: nat) {
      Leads(r + i, id)
    }

    lemma OneLeads(r: nat, id: nat)
      requires WellFormed()
      ensures Leads(r, id) <==> id == LeaderOf(r)
    {
      var k := Position(r, |order|);
      BeforeAreBelow(order, validators.Keys, k);
      if Leads(r, id) {
        var i :| 0 <= i < |order| && order[i] == id;
        BeforeAreBelow(order, validators.Keys, i);
      }
    }

    /** p was signed by the leader of its round, who is a known validator. */
    ghost predicate IsLeaderProposal(p: Proposal) {
      && p.height == height && Leads(p.round, p.proposer) && p.proposer in validators
      && verify(validators[p.proposer].key, ProposalContent(shard, height, p.round, p.blockHash), p.signature)
    }

    /** v was signed by the known validator it names. */
    predicate IsSigned(v: Vote) {
      && v.height == height && v.validator in validators
      && verify(validators[v.validator].key, VoteContent(shard, height, v.round, v.phase, v.blockHash), v.signature)
    }

    /** A collection of signed votes of distinct validators for one block in one round and phase. */
    ghost predicate IsBallot(b: Bucket, r: u32, phase: VotePhase, blockHash: BlockHash) {
      forall id :: id in b ==>
        IsSigned(b[id]) && b[id].validator == id && b[id].round == r && b[id].phase == phase
          && b[id].blockHash == blockHash
    }

    ghost predicate IsCertificate(b: Bucket, r: u32, phase: VotePhase, blockHash: BlockHash) {
      IsBallot(b, r, phase, blockHash) && IsQuorum(validators, b.Keys)
    }

    /** The invariant of every run: the votes held are for the one proposal of the current round,
        each phase that was left has a certificate, and the current one has none yet. */
    ghost predicate ValidView(view: View)
      requires order != []
    {
      && (view.proposal.None? <==> view.step == AwaitProposal)
      && (view.proposal.None? ==> view.votes == map[])
      && (view.proposal.Some? ==> view.proposal.value.round == view.round && IsLeaderProposal(view.proposal.value))
      && (view.proposal.Some? ==> Certified(view, view.proposal.value.blockHash))
      && (view.proposal.None? ==> view.finalized.None?)
    }

    /** The votes of one phase are for the given block; they form a quorum exactly when the phase
        is passed, and a later phase has none at all.  (The commit votes of a final block have been
        moved into it.) */
    ghost predicate PhaseIsSound(view: View, blockHash: BlockHash, phase: VotePhase) {
      var bucket := BucketOf(view.votes, phase);
      && IsBallot(bucket, view.round, phase, blockHash)
      && (Rank(phase) <= Passed(view.step) && phase != Commit ==> IsQuorum(validators, bucket.Keys))
      && (Rank(phase) > Passed(view.step) && phase in view.votes ==> !IsQuorum(validators, bucket.Keys))
      && (Rank(phase) > Passed(view.step) + 1 ==> phase !in view.votes)
    }

    ghost predicate FinalIsSound(view: View, blockHash: BlockHash) {
      && (view.finalized.Some? <==> view.step == Finalized)
      && (view.finalized.Some? ==>
           var f := view.finalized.value;
           && f.height == height && f.round == view.round && f.blockHash == blockHash
           && IsCertificate(f.commitVotes, view.round, Commit, blockHash))
    }

    ghost predicate Certified(view: View, blockHash: BlockHash) {
      (forall phase :: PhaseIsSound(view, blockHash, phase)) && FinalIsSound(view, blockHash)
    }

    function TheView(): View
      reads this
    {
      View(round, step, proposal, votes, finalized)
    }

    ghost predicate Valid()
      reads this
    {
      WellFormed() && ValidView(TheView())
    }

    constructor (verify: Verifier, shard: ShardIdent, height: u64, validators: map<nat, Validator>, order: seq<nat>,
      totalStake: u64, now: u64, timeouts: Timeouts)
      requires order != [] && Ascending(order) && (forall x :: x in order <==> x in validators)
        && |order| == |validators|
      requires totalStake == CountedStake(validators, validators.Keys) && totalStake > 0
      ensures Valid() && step == AwaitProposal && round == 0
      ensures this.verify == verify && this.shard == shard && this.height == height && this.validators == validators
    {
      this.verify, this.shard, this.height, this.validators := verify, shard, height, validators;
      this.order, this.totalStake, this.timeouts, roundStartedAt := order, totalStake, timeouts, now;
      round, step, proposal, votes, finalized := 0, AwaitProposal, None, map[], None;
    }

    static method New(verify: Verifier, shard: ShardIdent, height: u64, list: seq<(nat, Validator)>, now: u64,
        timeouts: Timeouts)
      returns (r: Result<ConsensusEngine, ConsensusError>)
      ensures HasDuplicate(list) ==> r == Err(DuplicateCandidate)
      ensures !HasDuplicate(list) && (forall x :: x in list ==> x.1.stake == 0) ==> r == Err(EmptyValidatorSet)
      ensures !HasDuplicate(list) && (exists x :: x in list && x.1.stake > 0) ==> r.Ok?
      ensures r.Ok? ==> fresh(r.value) && r.value.Valid() && r.value.round == 0 && r.value.step == AwaitProposal
      ensures r.Ok? ==> r.value.verify == verify && r.value.shard == shard && r.value.height == height
      ensures r.Ok? ==> r.value.validators == EntriesOf(list)
    {
      var built := BuildEntries(list);
      if built.Err? {
        return Err(built.error);
      }
      var (entries, total) := built.value;
      if entries == map[] || total == 0 {
        return Err(EmptyValidatorSet);
      }
      var order := InOrder(entries.Keys);
      assert |entries| == |entries.Keys| > 0;
      var engine := new ConsensusEngine(verify, shard, height, entries, order, total, now, timeouts);
      return Ok(engine);
    }

    static method BuildEntries(list: Candidates) returns (r: Result<(map<nat, Validator>, u64), ConsensusError>)
      ensures r == if HasDuplicate(list) then Err(DuplicateCandidate)
                   else Ok((EntriesOf(list), CountedStake(EntriesOf(list), EntriesOf(list).Keys)))
      ensures r.Ok? ==> (r.value.1 == 0 <==> forall x :: x in list ==> x.1.stake == 0)
    {
      var entries: map<nat, Validator> := map[];
      var total: u64 := 0;
      for i := 0 to |list|
        invariant !HasDuplicate(list[..i]) && entries == EntriesOf(list[..i])
        invariant total == CountedStake(entries, entries.Keys)
        invariant total == 0 <==> forall x :: x in list[..i] ==> x.1.stake == 0
      {
        OneMoreCandidate(list, i);
        var (id, v) := list[i];
        if id in entries {
          return Err(DuplicateCandidate);
        }
        OneMoreValidator(entries, id, v);
        entries := entries[id := v];
        total := SaturatingAdd(total, v.stake);
      }
      assert list[..|list|] == list;
      r := Ok((entries, total));
    }

    function Leader(): nat
      reads this
      requires order != []
    {
      LeaderOf(round)
    }

    /** The stake behind a phase, added up with saturation. */
    method VoteStake(phase: VotePhase) returns (stake: u64)
      ensures stake == CountedStake(validators, BucketOf(votes, phase).Keys)
    {
      stake := 0;
      var rest := BucketOf(votes, phase).Keys;
      ghost var done := {};
      while rest != {}
        invariant done !! rest && done + rest == BucketOf(votes, phase).Keys
        invariant stake == CountedStake(validators, done)
        decreases |rest|
      {
        var id :| id in rest;
        StakeWith(StakesOf(validators), done, id);
        if id in validators {
          stake := SaturatingAdd(stake, validators[id].stake);
        }
        rest, done := rest - {id}, done + {id};
      }
      assert done == BucketOf(votes, phase).Keys;
    }

    method HasSupermajority(phase: VotePhase) returns (b: bool)
      requires WellFormed()
      ensures b <==> IsQuorum(validators, BucketOf(votes, phase).Keys)
    {
      var stake := VoteStake(phase);
      b := stake * 3 >= totalStake * 2;
    }

    /** Accepts the leader's proposal for the current round, once; everything else changes nothing. */
    method ReceiveProposal(p: Proposal) returns (r: Result<(), ConsensusError>)
      requires Valid()
      modifies this
      ensures Valid()
      ensures r.Ok? <==> (old(step) != Finalized && p.round == old(round) && IsLeaderProposal(p)
                         && (old(proposal).Some? ==> old(proposal).value.blockHash == p.blockHash))
      ensures if r.Ok? && old(proposal).None? then proposal == Some(p) && step == PreVoting
              else proposal == old(proposal) && step == old(step)
      ensures round == old(round) && roundStartedAt == old(roundStartedAt) && votes == old(votes)
        && finalized == old(finalized)
      ensures old(step) == Finalized ==> TheView() == old(TheView())
    {
      if step == Finalized {
        return Err(InvalidStep);
      }
      if p.height != height || p.round != round {
        return Err(InvalidRound);
      }
      OneLeads(round, p.proposer);
      if p.proposer != Leader() {
        return Err(InvalidLeader);
      }
      if p.proposer !in validators {
        return Err(UnknownValidator);
      }
      if !verify(validators[p.proposer].key, ProposalContent(shard, p.height, p.round, p.blockHash), p.signature) {
        return Err(InvalidSignature);
      }
      if proposal.Some? {
        if proposal.value.blockHash != p.blockHash {
          return Err(ConflictingProposal);
        }
        return Ok(());
      }
      EmptyIsNoQuorum(validators);
      proposal := Some(p);
      step := PreVoting;
      r := Ok(());
    }

    /** Leaves the phase that has reached its quorum. */
    method AdvanceAfterQuorum(phase: VotePhase)
      requires proposal.Some?
      modifies this`step, this`votes, this`finalized
      ensures step == StepAfter(phase)
      ensures phase != Commit ==> votes == old(votes) && finalized == old(finalized)
      ensures phase == Commit ==> votes == old(votes) - {Commit}
      ensures phase == Commit ==>
        finalized == Some(FinalizedBlock(height, round, proposal.value.blockHash, BucketOf(old(votes), Commit)))
    {
      match phase
      case PreVote => step := PreCommitting;
      case PreCommit => step := Committing;
      case Commit =>
        var commits := BucketOf(votes, Commit);
        votes := votes - {Commit};
        finalized := Some(FinalizedBlock(height, round, proposal.value.blockHash, commits));
        step := Finalized;
    }

    function TimeoutForStep(): u64
      reads this
    {
      match step
      case AwaitProposal => timeouts.proposal
      case PreVoting => timeouts.prevote
      case PreCommitting => timeouts.precommit
      case Committing => timeouts.commit
      case Finalized => U64_MAX
    }

    /** Starts the next round when the current step has lasted too long; all votes are dropped. */
    method OnTimeout(now: u64) returns (advanced: bool)
      requires Valid()
      modifies this
      ensures Valid()
      ensures advanced <==>
        && old(step) != Finalized
        && var elapsed := if now >= old(roundStartedAt) then now - old(roundStartedAt) else 0;
        && (old(step) == AwaitProposal ==> elapsed >= timeouts.proposal)
        && (old(step) == PreVoting ==> elapsed >= timeouts.prevote)
        && (old(step) == PreCommitting ==> elapsed >= timeouts.precommit)
        && (old(step) == Committing ==> elapsed >= timeouts.commit)
      ensures advanced ==> round == (if old(round) == U32_MAX then U32_MAX else old(round) + 1)
      ensures advanced ==> roundStartedAt == now && step == AwaitProposal && proposal == None && votes == map[]
      ensures !advanced ==> round == old(round) && roundStartedAt == old(roundStartedAt) && step == old(step)
      ensures !advanced ==> proposal == old(proposal) && votes == old(votes)
      ensures finalized == old(finalized)
      ensures old(step) == Finalized ==> TheView() == old(TheView())
    {
      var elapsed := if now >= roundStartedAt then now - roundStartedAt else 0;
      if step == Finalized || elapsed < TimeoutForStep() {
        return false;
      }
      round := if round == U32_MAX then U32_MAX else round + 1;
      roundStartedAt := now;
      step := AwaitProposal;
      proposal := None;
      votes := map[];
      return true;
    }

    /** A vote that the engine takes in: signed, for the proposal of this round, in the phase that
        is being collected, and the first of its validator. */
    predicate IsFreshVote(v: Vote)
      reads this
    {
      && v.round == round && proposal.Some? && proposal.value.blockHash == v.blockHash && IsSigned(v)
      && PhaseOf(step) == Some(v.phase) && v.validator !in BucketOf(votes, v.phase)
    }

    /** A vote that comes too late to count but does no harm. */
    predicate IsLateVote(v: Vote)
      reads this
    {
      && v.round == round && proposal.Some? && proposal.value.blockHash == v.blockHash && IsSigned(v)
      && PhaseOf(step).Some? && Rank(v.phase) < Rank(PhaseOf(step).value)
    }

    method ReceiveVote(v: Vote) returns (r: Result<(), ConsensusError>)
      requires Valid()
      modifies this
      ensures Valid()
      ensures r.Ok? <==> old(IsFreshVote(v)) || old(IsLateVote(v))
      ensures TheView() == (if old(IsFreshVote(v)) then AfterVote(old(TheView()), v) else old(TheView()))
      ensures roundStartedAt == old(roundStartedAt)
      ensures old(step) == Finalized ==> TheView() == old(TheView())
    {
      if v.height != height || v.round != round {
        return Err(InvalidRound);
      }
      if proposal.None? || proposal.value.blockHash != v.blockHash {
        return Err(ConflictingProposal);
      }
      if PhaseOf(step).None? {
        return Err(InvalidStep);
      }
      var expected := PhaseOf(step).value;
      if v.validator !in validators {
        return Err(UnknownValidator);
      }
      if !verify(validators[v.validator].key, VoteContent(shard, v.height, v.round, v.phase, v.blockHash),
        v.signature) {
        return Err(InvalidSignature);
      }
      if v.phase != expected {
        if Rank(v.phase) < Rank(expected) {
          return Ok(());
        }
        return Err(InvalidStep);
      }
      if v.validator in BucketOf(votes, v.phase) {
        return Err(DuplicateValidatorSignature);
      }
      CountingKeepsValid(TheView(), v);
      CountVote(v);
      r := Ok(());
    }

    /** Puts a vote into its bucket and leaves the phase once its quorum is complete. */
    method CountVote(v: Vote)
      requires WellFormed() && proposal.Some? && proposal.value.blockHash == v.blockHash
      modifies this`votes, this`step, this`finalized
      ensures TheView() == AfterVote(old(TheView()), v)
    {
      var bucket := BucketOf(votes, v.phase)[v.validator := v];
      votes := votes[v.phase := bucket];
      var enough := HasSupermajority(v.phase);
      if enough {
        AdvanceAfterQuorum(v.phase);
        assert v.phase == Commit ==> votes == old(votes) - {Commit};
      }
    }

    /** The view after a fresh vote. */
    ghost function AfterVote(view: View, v: Vote): View {
      var bucket := BucketOf(view.votes, v.phase)[v.validator := v];
      if !IsQuorum(validators, bucket.Keys) then view.(votes := view.votes[v.phase := bucket])
      else if v.phase == Commit then
        view.(step := Finalized, votes := view.votes - {Commit},
              finalized := Some(FinalizedBlock(height, view.round, v.blockHash, bucket)))
      else view.(step := StepAfter(v.phase), votes := view.votes[v.phase := bucket])
    }

    lemma BucketsAfterVote(view: View, v: Vote, phase: VotePhase)
      ensures
        var bucket := BucketOf(view.votes, v.phase)[v.validator := v];
        var after := AfterVote(view, v);
        BucketOf(after.votes, phase) ==
        if phase != v.phase then BucketOf(view.votes, phase)
        else if IsQuorum(validators, bucket.Keys) && phase == Commit then map[] else bucket
    {
    }

    /** A vote that fits the view it is counted in. */
    ghost predicate Fits(view: View, v: Vote) {
      v.round == view.round && IsSigned(v) && PhaseOf(view.step) == Some(v.phase) && Certified(view, v.blockHash)
    }

    lemma PhasesAfterVote(view: View, v: Vote, phase: VotePhase)
      requires Fits(view, v)
      ensures PhaseIsSound(AfterVote(view, v), v.blockHash, phase)
    {
      assert PhaseIsSound(view, v.blockHash, phase);
      BucketsAfterVote(view, v, phase);
    }

    lemma FinalAfterVote(view: View, v: Vote)
      requires Fits(view, v)
      ensures FinalIsSound(AfterVote(view, v), v.blockHash)
    {
      assert PhaseIsSound(view, v.blockHash, v.phase);
      var bucket := BucketOf(view.votes, v.phase)[v.validator := v];
      assert IsBallot(bucket, view.round, v.phase, v.blockHash);
    }

    lemma CountingKeepsValid(view: View, v: Vote)
      requires WellFormed() && ValidView(view) && view.proposal.Some? && view.proposal.value.blockHash == v.blockHash
      requires v.round == view.round && IsSigned(v) && PhaseOf(view.step) == Some(v.phase)
      ensures ValidView(AfterVote(view, v))
    {
      forall phase
        ensures PhaseIsSound(AfterVote(view, v), v.blockHash, phase)
      {
        PhasesAfterVote(view, v, phase);
      }
      FinalAfterVote(view, v);
    }
  }

  lemma EmptyIsNoQuorum(validators: map<nat, Validator>)
    requires CountedStake(validators, validators.Keys) > 0
    ensures !IsQuorum(validators, {})
  {
  }

  lemma OneMoreValidator(validators: map<nat, Validator>, id: nat, v: Validator)
    requires id !in validators
    ensures
      var more := validators[id := v];
      CountedStake(more, more.Keys) == SaturatingAdd(CountedStake(validators, validators.Keys), v.stake)
  {
    var more := validators[id := v];
    assert more.Keys == validators.Keys + {id};
    StakeWith(StakesOf(more), validators.Keys, id);
    SameStakes(StakesOf(validators), StakesOf(more), validators.Keys);
  }

  lemma AscendingDiffer(order: seq<nat>, i: nat, j: nat)
    requires Ascending(order) && i < |order| && j < |order|
    ensures order[i] == order[j] <==> i == j
  {
  }

  /** In any n consecutive rounds each of the n validators leads exactly once. */
  lemma LeadersRotate(e: ConsensusEngine, r: nat, id: nat) returns (i: nat)
    requires e.WellFormed() && id in e.validators
    ensures i < |e.validators|
    ensures forall j: nat :: j < |e.validators| ==> (e.LeadsAfter(r, j, id) <==> j == i)
  {
    var k :| 0 <= k < |e.order| && e.order[k] == id;
    i := EachLeadsOnce(r, |e.order|, k);
    forall j: nat | j < |e.order|
      ensures e.LeadsAfter(r, j, id) <==> j == i
    {
      hide ConsensusEngine.Leads, Position;
      e.OneLeads(r + j, id);
      assert PositionAfter(r, |e.order|, j) == Position(r + j, |e.order|);
      AscendingDiffer(e.order, k, Position(r + j, |e.order|));
    }
  }

  /** When the whole stake fits the counter, counting loses nothing. */
  lemma CountingIsExact(validators: map<nat, Validator>, ids: set<nat>)
    requires ids <= validators.Keys && TotalStake(validators) <= U64_MAX
    ensures CountedStake(validators, ids) == StakeOf(StakesOf(validators), ids)
  {
    StakeIsMonotone(StakesOf(validators), ids, validators.Keys);
  }

  /** Two engines that finalized a block in the same round share commit voters that hold at least
      a third of the stake; if the blocks differ, each of them signed both commits. */
  lemma SameRoundAgreement(e: ConsensusEngine, f: ConsensusEngine) returns (both: set<nat>)
    requires e.Valid() && f.Valid() && e.finalized.Some? && f.finalized.Some?
    requires e.verify == f.verify && e.shard == f.shard && e.height == f.height && e.validators == f.validators
    requires e.finalized.value.round == f.finalized.value.round && TotalStake(e.validators) <= U64_MAX
    ensures
      var a, b := e.finalized.value, f.finalized.value;
      && both <= e.validators.Keys
      && 3 * StakeOf(StakesOf(e.validators), both) >= TotalStake(e.validators)
      && forall id :: id in both ==>
           && id in a.commitVotes && id in b.commitVotes
           && e.verify(e.validators[id].key, VoteContent(e.shard, e.height, a.round, Commit, a.blockHash),
              a.commitVotes[id].signature)
           && e.verify(e.validators[id].key, VoteContent(e.shard, e.height, a.round, Commit, b.blockHash),
              b.commitVotes[id].signature)
  {
    var a, b := e.finalized.value.commitVotes, f.finalized.value.commitVotes;
    assert e.FinalIsSound(e.TheView(), e.finalized.value.blockHash);
    assert f.FinalIsSound(f.TheView(), f.finalized.value.blockHash);
    both := a.Keys * b.Keys;
    CountingIsExact(e.validators, a.Keys);
    CountingIsExact(e.validators, b.Keys);
    CountingIsExact(e.validators, e.validators.Keys);
    assert StakesOf(e.validators).Keys == e.validators.Keys;
    QuorumsOverlap(StakesOf(e.validators), a.Keys, b.Keys);
  }

  // ---------- When quorums overlap ----------

  ghost predicate ShareAThird(validators: map<nat, Validator>, a: set<nat>, b: set<nat>) {
    3 * StakeOf(StakesOf(validators), a * b) >= TotalStake(validators)
  }

  /** Any two quorums share at least a third of the stake. */
  ghost predicate QuorumsShareAThird(validators: map<nat, Validator>) {
    forall a, b ::
      a <= validators.Keys && b <= validators.Keys && IsQuorum(validators, a) && IsQuorum(validators, b) ==>
        ShareAThird(validators, a, b)
  }

  lemma ExactCountingShares(validators: map<nat, Validator>)
    requires TotalStake(validators) <= U64_MAX
    ensures QuorumsShareAThird(validators)
  {
    assert StakesOf(validators).Keys == validators.Keys;
    forall a, b | a <= validators.Keys && b <= validators.Keys && IsQuorum(validators, a) && IsQuorum(validators, b)
      ensures ShareAThird(validators, a, b)
    {
      CountingIsExact(validators, a);
      CountingIsExact(validators, b);
      QuorumsOverlap(StakesOf(validators), a, b);
    }
  }

  /** Two thirds of what the counter can hold: a quorum, however large the whole stake is. */
  const QUORUM: nat := U64_MAX / 3 * 2

  /** Two quorums that share too little. */
  ghost predicate Splits(validators: map<nat, Validator>, a: set<nat>, b: set<nat>) {
    && a <= validators.Keys && b <= validators.Keys
    && StakeOf(StakesOf(validators), a) >= QUORUM && StakeOf(StakesOf(validators), b) >= QUORUM
    && !ShareAThird(validators, a, b)
  }

  lemma SplitIsNoOverlap(validators: map<nat, Validator>, a: set<nat>, b: set<nat>)
    requires Splits(validators, a, b)
    ensures !QuorumsShareAThird(validators)
  {
    assert IsQuorum(validators, a) && IsQuorum(validators, b);
  }

  lemma StakeOfTwo(stakes: map<nat, nat>, x: nat, y: nat)
    requires x != y
    ensures StakeOf(stakes, {x}) == One(stakes, x) && StakeOf(stakes, {x, y}) == One(stakes, x) + One(stakes, y)
  {
    StakeWith(stakes, {}, x);
    StakeWith(stakes, {x}, y);
    assert {} + {x} == {x} && {x} + {y} == {x, y};
  }

  /** A little more stake than the counter holds: two quorums that share the second of three validators. */
  lemma SplitOfThree(total: nat) returns (validators: map<nat, Validator>)
    requires U64_MAX < total <= 2 * QUORUM
    ensures TotalStake(validators) == total && Splits(validators, {1, 2}, {2, 3})
  {
    validators := map[1 := Validator(0, total - QUORUM), 2 := Validator(0, 2 * QUORUM - total),
      3 := Validator(0, total - QUORUM)];
    var stakes := StakesOf(validators);
    StakeOfTwo(stakes, 1, 2);
    StakeOfTwo(stakes, 2, 3);
    StakeWith(stakes, {1, 2}, 3);
    assert validators.Keys == {1, 2} + {3} && {1, 2} * {2, 3} == {2};
  }

  /** Any amount of stake can be given to further validators. */
  lemma {:induction false} SpreadRest(validators: map<nat, Validator>, rest: nat, next: nat)
    returns (more: map<nat, Validator>)
    requires forall id :: id in validators ==> id < next
    ensures TotalStake(more) == TotalStake(validators) + rest
    ensures forall id :: id in validators ==> id in more && more[id] == validators[id]
    decreases rest
  {
    if rest == 0 {
      more := validators;
    } else {
      var stake := if rest <= U64_MAX then rest else U64_MAX;
      var larger := validators[next := Validator(0, stake)];
      assert larger.Keys == validators.Keys + {next};
      StakeWith(StakesOf(larger), validators.Keys, next);
      SameStakes(StakesOf(validators), StakesOf(larger), validators.Keys);
      more := SpreadRest(larger, rest - stake, next + 1);
    }
  }

  /** Much more stake than the counter holds: two validators that are quorums on their own. */
  lemma SplitOfMany(total: nat) returns (validators: map<nat, Validator>)
    requires total > 2 * QUORUM
    ensures TotalStake(validators) == total && Splits(validators, {1}, {2})
  {
    var two := map[1 := Validator(0, QUORUM), 2 := Validator(0, QUORUM)];
    StakeOfTwo(StakesOf(two), 1, 2);
    assert two.Keys == {1, 2};
    validators := SpreadRest(two, total - 2 * QUORUM, 3);
    var stakes := StakesOf(validators);
    assert 1 in two && 2 in two;
    StakeOfTwo(stakes, 1, 2);
    StakeOfTwo(stakes, 2, 1);
    assert {1} * {2} == {} && StakeOf(stakes, {}) == 0;
  }

  /** Quorums of a whole stake overlap in a third of it exactly when the 64-bit counter holds that stake. */
  lemma OverlapNeedsExactCounting(total: nat)
    ensures (forall validators :: TotalStake(validators) == total ==> QuorumsShareAThird(validators)) <==>
      total <= U64_MAX
  {
    if total <= U64_MAX {
      forall validators | TotalStake(validators) == total
        ensures QuorumsShareAThird(validators)
      {
        ExactCountingShares(validators);
      }
    } else {
      var validators;
      if total <= 2 * QUORUM {
        validators := SplitOfThree(total);
        SplitIsNoOverlap(validators, {1, 2}, {2, 3});
      } else {
        validators := SplitOfMany(total);
        SplitIsNoOverlap(validators, {1}, {2});
      }
    }
  }
}
