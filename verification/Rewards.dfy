/** Splitting the reward of an epoch among validators (crates/protocol/onx-economics/src/slashing.rs, lib.rs). */
module Rewards {
  import opened Wrappers
  import opened Bytes
  import Sorting

  datatype ValidatorStake = ValidatorStake(id: u32, stake: u128)

  datatype ValidatorReward = ValidatorReward(id: u32, reward: u128)

  /** ArithmeticOverflow stands for the panic of a multiplication whose product is too large. */
  datatype RewardError = ZeroDenominator | InvalidValidatorStake | DuplicateValidator | ArithmeticOverflow

  const INFLATION_BPS := 175

  type Stakes = seq<ValidatorStake>

  // ---------- Sorting by identifier ----------

  function ById(): Sorting.Order<ValidatorStake> {
    (v: ValidatorStake, w: ValidatorStake) => v.id <= w.id
  }

  /** The stable sort of the source. */
  function SortById(s: Stakes): Stakes {
    Sorting.Sort(ById(), s)
  }

  predicate Ascending(s: Stakes) {
    forall i, j :: 0 <= i < j < |s| ==> s[i].id <= s[j].id
  }

  predicate StrictlyAscending(s: Stakes) {
    forall i, j :: 0 <= i < j < |s| ==> s[i].id < s[j].id
  }

  lemma SortSorts(s: Stakes)
    ensures Ascending(SortById(s)) && multiset(SortById(s)) == multiset(s)
  {
    Sorting.SortSorts(ById(), s);
    forall i, j | 0 <= i < j < |SortById(s)|
      ensures SortById(s)[i].id <= SortById(s)[j].id
    {
      assert ById()(SortById(s)[i], SortById(s)[j]);
    }
  }

  lemma IdsDistinguish(s: Stakes, all: multiset<ValidatorStake>)
    requires Distinct(s) && multiset(s) == all
    ensures Sorting.Distinguishes(ById(), all)
  {
    forall v, w | v in all && w in all && v.id == w.id
      ensures v == w
    {
      assert v in multiset(s) && w in multiset(s);
      var i :| 0 <= i < |s| && s[i] == v;
      var j :| 0 <= j < |s| && s[j] == w;
      assert i == j;
    }
  }

  // ---------- Checks ----------

  predicate HasStake(v: ValidatorStake) {
    v.stake > 0
  }

  /** What the checking loop reports, going through a sorted list from the front. */
  function FirstFault(s: Stakes): Option<RewardError> {
    if s == [] then None
    else
      var earlier := FirstFault(s[..|s| - 1]);
      if earlier.Some? then earlier
      else if s[|s| - 1].stake == 0 then Some(InvalidValidatorStake)
      else if exists i :: 0 <= i < |s| - 1 && s[i].id == s[|s| - 1].id then Some(DuplicateValidator)
      else None
  }

  predicate Distinct(s: Stakes) {
    forall i, j :: 0 <= i < j < |s| ==> s[i].id != s[j].id
  }

  lemma {:induction false} FaultlessMeans(s: Stakes)
    ensures FirstFault(s).None? <==> Distinct(s) && forall i :: 0 <= i < |s| ==> HasStake(s[i])
  {
    if s != [] {
      var front, last := s[..|s| - 1], s[|s| - 1];
      FaultlessMeans(front);
      assert forall i :: 0 <= i < |front| ==> s[i] == front[i];
      if FirstFault(s).Some? && FirstFault(front).None? {
        assert last.stake == 0 ==> !HasStake(s[|s| - 1]);
      }
    }
  }

  lemma {:induction false} FaultlessPrefix(s: Stakes, n: nat)
    requires n <= |s| && FirstFault(s[..n]).Some?
    ensures FirstFault(s) == FirstFault(s[..n])
    decreases |s|
  {
    if n < |s| {
      assert s[..|s| - 1][..n] == s[..n];
      FaultlessPrefix(s[..|s| - 1], n);
    } else {
      assert s[..n] == s;
    }
  }

  // ---------- Shares ----------

  function TotalStake(s: Stakes): nat {
    if s == [] then 0 else TotalStake(s[..|s| - 1]) + s[|s| - 1].stake
  }

  /** What is minted in an epoch for a total stake. */
  function EpochReward(total: u128, epochs: u64): Result<u128, RewardError> {
    if epochs == 0 then Err(ZeroDenominator)
    else if total * INFLATION_BPS > U128_MAX then Err(ArithmeticOverflow)
    else Ok(total * INFLATION_BPS / 10_000 / epochs)
  }

  predicate ProductsFit(s: Stakes, reward: nat) {
    forall i :: 0 <= i < |s| ==> reward * s[i].stake <= U128_MAX
  }

  /** The share of a stake, rounded down. */
  function FloorShare(reward: nat, stake: nat, total: nat): nat
    requires total > 0
  {
    reward * stake / total
  }

  /** What the code computes for it: the product saturates. */
  function Share(reward: nat, stake: nat, total: nat): nat
    requires total > 0
  {
    Min(reward * stake, U128_MAX) / total
  }

  function Allocated(s: Stakes, reward: nat, total: nat): nat
    requires total > 0
  {
    if s == [] then 0 else Allocated(s[..|s| - 1], reward, total) + Share(reward, s[|s| - 1].stake, total)
  }

  function Paid(rewards: seq<ValidatorReward>): nat {
    if rewards == [] then 0 else Paid(rewards[..|rewards| - 1]) + rewards[|rewards| - 1].reward
  }

  lemma Divided(a: nat, t: nat)
    requires t > 0
    ensures t * (a / t) <= a < t * (a / t) + t
  {
  }

  lemma Times(t: nat, a: nat, b: nat)
    ensures t * (a + b) == t * a + t * b
  {
  }

  lemma TimesMonotone(t: nat, a: nat, b: nat)
    requires a <= b
    ensures t * a <= t * b
  {
  }

  lemma CancelFactor(t: nat, a: nat, b: nat)
    requires t > 0
    ensures t * a <= t * b ==> a <= b
    ensures t * a < t * b ==> a < b
  {
    if a > b {
      TimesMonotone(t, b + 1, a);
      Times(t, b, 1);
    } else if a == b {
    }
  }

  lemma ProductsFitApart(s: Stakes, reward: nat)
    requires ProductsFit(s, reward) && s != []
    ensures ProductsFit(s[..|s| - 1], reward) && reward * s[|s| - 1].stake <= U128_MAX
  {
    var front := s[..|s| - 1];
    forall i | 0 <= i < |front|
      ensures reward * front[i].stake <= U128_MAX
    {
      assert reward * s[i].stake <= U128_MAX;
    }
  }

  /** How much the products of reward and stake exceed 128 bits, all together. */
  function Excess(s: Stakes, reward: nat): nat {
    if s == [] then 0 else Excess(s[..|s| - 1], reward) + Over(reward * s[|s| - 1].stake)
  }

  function Over(product: nat): nat {
    if product > U128_MAX then product - U128_MAX else 0
  }

  /** The product of a share: what its division kept, what rounding lost and what saturation lost. */
  lemma ShareLoses(reward: nat, stake: nat, total: nat)
    requires total > 0
    ensures
      var kept := total * Share(reward, stake, total) + Over(reward * stake);
      kept <= reward * stake < kept + total
  {
    Divided(Min(reward * stake, U128_MAX), total);
  }

  lemma {:induction false} AllocatedLoses(s: Stakes, reward: nat, total: nat)
    requires total > 0
    ensures total * Allocated(s, reward, total) + Excess(s, reward) <= reward * TotalStake(s)
    ensures s != [] ==> reward * TotalStake(s) < total * Allocated(s, reward, total) + Excess(s, reward) + total * |s|
  {
    if s == [] {
      assert total * 0 == 0 && reward * 0 == 0;
    } else {
      var front, stake := s[..|s| - 1], s[|s| - 1].stake;
      AllocatedLoses(front, reward, total);
      ShareLoses(reward, stake, total);
      Times(reward, TotalStake(front), stake);
      Times(total, Allocated(front, reward, total), Share(reward, stake, total));
      Times(total, |front|, 1);
    }
  }

  lemma {:induction false} NoExcess(s: Stakes, reward: nat)
    ensures Excess(s, reward) == 0 <==> ProductsFit(s, reward)
  {
    if s != [] {
      var front := s[..|s| - 1];
      NoExcess(front, reward);
      if ProductsFit(s, reward) {
        ProductsFitApart(s, reward);
      } else if ProductsFit(front, reward) {
        var i :| 0 <= i < |s| && reward * s[i].stake > U128_MAX;
        assert i < |front| ==> reward * front[i].stake <= U128_MAX;
      }
    }
  }

  lemma {:induction false} ExcessOfOne(s: Stakes, reward: nat, i: nat)
    requires i < |s|
    ensures Over(reward * s[i].stake) <= Excess(s, reward)
  {
    if i < |s| - 1 {
      assert s[..|s| - 1][i] == s[i];
      ExcessOfOne(s[..|s| - 1], reward, i);
    }
  }

  /** Rounding never gives away more than the reward; without saturation less than one unit a validator is left. */
  lemma AllocatedIsClose(s: Stakes, reward: nat, total: nat)
    requires total > 0 && total == TotalStake(s)
    ensures Allocated(s, reward, total) <= reward
    ensures ProductsFit(s, reward) ==> reward - Allocated(s, reward, total) < |s|
  {
    hide *;
    AllocatedLoses(s, reward, total);
    NoExcess(s, reward);
    SomebodyHasStake(s);
    var sum := Allocated(s, reward, total);
    assert reward * total == total * reward;
    CancelFactor(total, sum, reward);
    Times(total, sum, |s|);
    CancelFactor(total, reward, sum + |s|);
  }

  lemma SomebodyHasStake(s: Stakes)
    requires TotalStake(s) > 0
    ensures s != []
  {
  }

  /** The rewards as they come out: shares, and one unit more for the first extra validators. */
  predicate Pays(rewards: seq<ValidatorReward>, s: Stakes, reward: nat, total: nat, extra: nat)
    requires total > 0
  {
    |rewards| == |s| && forall i :: 0 <= i < |s| ==>
      rewards[i].id == s[i].id && rewards[i].reward == Share(reward, s[i].stake, total) + if i < extra then 1 else 0
  }

  lemma {:induction false} PaidIs(rewards: seq<ValidatorReward>, s: Stakes, reward: nat, total: nat, extra: nat)
    requires total > 0 && Pays(rewards, s, reward, total, extra)
    ensures Paid(rewards) == Allocated(s, reward, total) + Min(extra, |s|)
  {
    if s != [] {
      PaidIs(rewards[..|s| - 1], s[..|s| - 1], reward, total, extra);
    }
  }

  lemma {:induction false} IdsCount(s: Stakes, i: nat)
    requires StrictlyAscending(s) && i < |s|
    ensures s[i].id >= i
  {
    if i > 0 {
      IdsCount(s, i - 1);
    }
  }

  /** The remainder as the source takes it, which is cut to 64 bits. */
  function ExtraOf(reward: nat, given: nat): u64
    requires given <= reward
  {
    (reward - given) % (U64_MAX + 1)
  }

  // ---------- The distribution ----------

  /** The rewards that are handed out for a reward and the total stake. */
  ghost predicate Settled(s: Stakes, total: nat, reward: nat, rewards: seq<ValidatorReward>) {
    && total == TotalStake(s) && total > 0 && Allocated(s, reward, total) <= reward
    && Pays(rewards, s, reward, total, ExtraOf(reward, Allocated(s, reward, total)))
  }

  /** What becomes of the sorted list. */
  ghost predicate Outcome(s: Stakes, epochs: u64, r: Result<seq<ValidatorReward>, RewardError>) {
    if FirstFault(s).Some? then r == Err(FirstFault(s).value)
    else if s == [] then r == Err(InvalidValidatorStake)
    else
      match EpochReward(Min(TotalStake(s), U128_MAX), epochs)
      case Err(e) => r == Err(e)
      case Ok(reward) => r.Ok? && Settled(s, Min(TotalStake(s), U128_MAX), reward, r.value)
  }

  /** Adds up the stakes; the sum saturates. */
  method CheckStakes(s: Stakes) returns (r: Result<u128, RewardError>)
    ensures FirstFault(s).Some? ==> r == Err(FirstFault(s).value)
    ensures FirstFault(s).None? ==> r == Ok(Min(TotalStake(s), U128_MAX))
  {
    var ids: set<u32> := {};
    var total: u128 := 0;
    for i := 0 to |s|
      invariant FirstFault(s[..i]).None? && total == Min(TotalStake(s[..i]), U128_MAX)
      invariant forall id :: id in ids <==> exists k :: 0 <= k < i && s[k].id == id
    {
      assert s[..i + 1][..i] == s[..i];
      if s[i].stake == 0 {
        FaultlessPrefix(s, i + 1);
        return Err(InvalidValidatorStake);
      }
      if s[i].id in ids {
        var k :| 0 <= k < i && s[k].id == s[i].id;
        assert s[..i + 1][k].id == s[..i + 1][i].id;
        FaultlessPrefix(s, i + 1);
        return Err(DuplicateValidator);
      }
      ids := ids + {s[i].id};
      total := Min(total + s[i].stake, U128_MAX);
    }
    assert s[..|s|] == s;
    return Ok(total);
  }

  method DistributeEpochRewards(validators: Stakes, epochs: u64) returns (r: Result<seq<ValidatorReward>, RewardError>)
    ensures Outcome(SortById(validators), epochs, r)
    ensures r.Ok? ==> forall other :: multiset(other) == multiset(validators) ==> Outcome(SortById(other), epochs, r)
  {
    hide Outcome, SortById, Pays, FirstFault, TotalStake, Allocated, Excess;
    var s := SortById(validators);
    var checked := CheckStakes(s);
    ThatIsRejected(s, epochs);
    if checked.Err? {
      return Err(checked.error);
    }
    var total := checked.value;
    if s != [] {
      FaultlessHaveStake(s);
    }
    if total == 0 {
      return Err(InvalidValidatorStake);
    }
    var computed := EpochReward(total, epochs);
    if computed.Err? {
      return Err(computed.error);
    }
    var reward := computed.value;
    var rewards, given := FloorShares(s, reward, total);
    AllocatedIsClose(s, reward, total);
    rewards := HandOutRest(rewards, s, reward, total, ExtraOf(reward, given));
    r := Ok(rewards);
    ThatIsTheOutcome(s, epochs, reward, rewards);
    forall other | multiset(other) == multiset(validators)
      ensures Outcome(SortById(other), epochs, r)
    {
      var _ := RewardsForgetOrder(validators, other, epochs, rewards);
    }
  }

  lemma ThatIsTheOutcome(s: Stakes, epochs: u64, reward: nat, rewards: seq<ValidatorReward>)
    requires FirstFault(s).None? && s != [] && EpochReward(Min(TotalStake(s), U128_MAX), epochs) == Ok(reward)
    requires Settled(s, Min(TotalStake(s), U128_MAX), reward, rewards)
    ensures Outcome(s, epochs, Ok(rewards))
  {
  }

  lemma ThatIsRejected(s: Stakes, epochs: u64)
    ensures FirstFault(s).Some? ==> Outcome(s, epochs, Err(FirstFault(s).value))
    ensures FirstFault(s).None? && s == [] ==> TotalStake(s) == 0 && Outcome(s, epochs, Err(InvalidValidatorStake))
    ensures
      var computed := EpochReward(Min(TotalStake(s), U128_MAX), epochs);
      FirstFault(s).None? && s != [] && computed.Err? ==> Outcome(s, epochs, Err(computed.error))
  {
  }

  lemma FaultlessHaveStake(s: Stakes)
    requires FirstFault(s).None? && s != []
    ensures TotalStake(s) > 0
  {
  }

  lemma {:induction false} ShareIsBounded(s: Stakes, reward: nat, total: nat, i: nat)
    requires total > 0 && i < |s|
    ensures Share(reward, s[i].stake, total) <= Allocated(s, reward, total)
  {
    if i < |s| - 1 {
      assert s[..|s| - 1][i] == s[i];
      ShareIsBounded(s[..|s| - 1], reward, total, i);
    }
  }

  method FloorShares(s: Stakes, reward: u128, total: u128) returns (rewards: seq<ValidatorReward>, given: nat)
    requires total > 0 && total == TotalStake(s)
    ensures Pays(rewards, s, reward, total, 0) && given == Allocated(s, reward, total)
  {
    rewards, given := [], 0;
    for i := 0 to |s|
      invariant Pays(rewards, s[..i], reward, total, 0) && given == Allocated(s[..i], reward, total)
    {
      assert s[..i + 1][..i] == s[..i];
      AllocatedIsClose(s, reward, total);
      ShareIsBounded(s, reward, total, i);
      rewards := rewards + [ValidatorReward(s[i].id, Min(reward * s[i].stake, U128_MAX) / total)];
      given := given + Min(reward * s[i].stake, U128_MAX) / total;
    }
    assert s[..|s|] == s;
  }

  /** One unit more for each validator as long as something is left. */
  method HandOutRest(floors: seq<ValidatorReward>, ghost s: Stakes, ghost reward: u128, ghost total: u128, extra: nat)
    returns (rewards: seq<ValidatorReward>)
    requires total > 0 && total == TotalStake(s) && Pays(floors, s, reward, total, 0)
    requires Allocated(s, reward, total) <= reward && extra <= reward - Allocated(s, reward, total)
    ensures Pays(rewards, s, reward, total, extra)
  {
    rewards := floors;
    var i := 0;
    while i < |floors| && i < extra
      invariant i <= |floors| && i <= extra && Pays(rewards, s, reward, total, i)
    {
      ShareIsBounded(s, reward, total, i);
      rewards := rewards[i := rewards[i].(reward := rewards[i].reward + 1)];
      i := i + 1;
    }
  }

  // ---------- What the distribution achieves ----------

  lemma FaultlessAscend(s: Stakes)
    requires Ascending(s) && FirstFault(s).None?
    ensures StrictlyAscending(s)
  {
    FaultlessMeans(s);
  }

  lemma FewerThanIds(s: Stakes)
    requires StrictlyAscending(s)
    ensures |s| <= U32_MAX + 1
  {
    if s != [] {
      IdsCount(s, |s| - 1);
    }
  }

  lemma PaidWhenCloseEnough(s: Stakes, total: nat, reward: nat, rewards: seq<ValidatorReward>)
    requires Settled(s, total, reward, rewards) && StrictlyAscending(s)
    ensures Paid(rewards) <= reward && (Paid(rewards) == reward <==> reward <= Allocated(s, reward, total) + |s|)
  {
    PaidIs(rewards, s, reward, total, ExtraOf(reward, Allocated(s, reward, total)));
    FewerThanIds(s);
  }

  /** Nothing of the reward is lost while the products exceed 128 bits by no more than the total
      stake, and something is once they exceed them by more than that for every validator. */
  lemma PaidInFull(s: Stakes, total: nat, reward: nat, rewards: seq<ValidatorReward>)
    requires Settled(s, total, reward, rewards) && StrictlyAscending(s)
    ensures Excess(s, reward) <= total ==> Paid(rewards) == reward
    ensures Excess(s, reward) > total * |s| ==> Paid(rewards) < reward
  {
    hide *;
    SettledFacts(s, total, reward, rewards);
    AllocatedLoses(s, reward, total);
    SomebodyHasStake(s);
    PaidWhenCloseEnough(s, total, reward, rewards);
    var sum := Allocated(s, reward, total);
    assert reward * total == total * reward;
    Times(total, sum, |s|);
    Times(total, sum + |s|, 1);
    CancelFactor(total, sum + |s|, reward);
    CancelFactor(total, reward, sum + |s| + 1);
  }

  lemma SettledFacts(s: Stakes, total: nat, reward: nat, rewards: seq<ValidatorReward>)
    requires Settled(s, total, reward, rewards)
    ensures total == TotalStake(s) > 0
  {
  }

  /** One stake whose product is too large is enough to lose some of the reward. */
  lemma SaturationLosesRewards(s: Stakes, total: nat, reward: nat, rewards: seq<ValidatorReward>, i: nat)
    requires Settled(s, total, reward, rewards) && StrictlyAscending(s) && i < |s|
    requires reward * s[i].stake > U128_MAX + total * |s|
    ensures Paid(rewards) < reward
  {
    hide Settled, Excess, Paid;
    ExcessOfOne(s, reward, i);
    PaidInFull(s, total, reward, rewards);
  }

  lemma ShareIsFloor(s: Stakes, total: nat, reward: nat, i: nat)
    requires total > 0 && ProductsFit(s, reward) && i < |s|
    ensures Share(reward, s[i].stake, total) == FloorShare(reward, s[i].stake, total)
  {
    assert reward * s[i].stake <= U128_MAX;
  }

  /** Without saturation all of the reward is paid, and everyone gets the share rounded down or one unit more. */
  lemma FairWhenProductsFit(s: Stakes, total: nat, reward: nat, rewards: seq<ValidatorReward>)
    requires Settled(s, total, reward, rewards) && StrictlyAscending(s) && ProductsFit(s, reward)
    ensures Paid(rewards) == reward && |rewards| == |s|
    ensures forall i :: 0 <= i < |s| ==>
      && rewards[i].id == s[i].id
      && FloorShare(reward, s[i].stake, total) <= rewards[i].reward <= FloorShare(reward, s[i].stake, total) + 1
  {
    NoExcess(s, reward);
    PaidInFull(s, total, reward, rewards);
    forall i | 0 <= i < |s|
      ensures Share(reward, s[i].stake, total) == FloorShare(reward, s[i].stake, total)
    {
      ShareIsFloor(s, total, reward, i);
    }
  }

  /** Rewards that are handed out were settled for the reward of the epoch. */
  lemma HandedOutIsSettled(s: Stakes, epochs: u64, rewards: seq<ValidatorReward>) returns (reward: nat)
    requires Ascending(s) && Outcome(s, epochs, Ok(rewards))
    ensures TotalStake(s) <= U128_MAX && EpochReward(TotalStake(s), epochs) == Ok(reward)
    ensures Settled(s, TotalStake(s), reward, rewards) && StrictlyAscending(s)
  {
    reward := EpochReward(Min(TotalStake(s), U128_MAX), epochs).value;
    FaultlessAscend(s);
  }

  /** A stake of 10^30 in one epoch a year is such a one. */
  lemma LargeStakeLosesRewards(rewards: seq<ValidatorReward>)
    requires Settled([ValidatorStake(1, 1_000_000_000_000_000_000_000_000_000_000)],
      1_000_000_000_000_000_000_000_000_000_000, 17_500_000_000_000_000_000_000_000_000, rewards)
    ensures EpochReward(1_000_000_000_000_000_000_000_000_000_000, 1) == Ok(17_500_000_000_000_000_000_000_000_000)
    ensures Paid(rewards) < 17_500_000_000_000_000_000_000_000_000
  {
    var total := 1_000_000_000_000_000_000_000_000_000_000;
    hide Settled, Paid;
    SaturationLosesRewards([ValidatorStake(1, total)], total, 17_500_000_000_000_000_000_000_000_000, rewards, 0);
  }

  // ---------- The order of the input ----------

  lemma PayIsUnique(rewards: seq<ValidatorReward>, others: seq<ValidatorReward>, s: Stakes, reward: nat, total: nat,
      extra: nat)
    requires total > 0 && Pays(rewards, s, reward, total, extra) && Pays(others, s, reward, total, extra)
    ensures rewards == others
  {
    forall i | 0 <= i < |rewards|
      ensures rewards[i] == others[i]
    {
      assert rewards[i].id == others[i].id && rewards[i].reward == others[i].reward;
    }
  }

  /** There is one outcome for a sorted list. */
  lemma OutcomeIsUnique(s: Stakes, epochs: u64, r: Result<seq<ValidatorReward>, RewardError>,
                        q: Result<seq<ValidatorReward>, RewardError>)
    requires Outcome(s, epochs, r) && Outcome(s, epochs, q)
    ensures r == q
  {
    hide Pays, FirstFault, Allocated, TotalStake, Share;
    if r.Ok? {
      var total := Min(TotalStake(s), U128_MAX);
      var reward := EpochReward(total, epochs).value;
      PayIsUnique(r.value, q.value, s, reward, total, ExtraOf(reward, Allocated(s, reward, total)));
    }
  }

  /** Different identifiers are sorted into the same list from any order. */
  lemma SortOfDistinct(a: Stakes, b: Stakes)
    requires multiset(a) == multiset(b) && Distinct(SortById(a))
    ensures SortById(a) == SortById(b)
  {
    SortSorts(a);
    IdsDistinguish(SortById(a), multiset(a));
    Sorting.SortForgetsOrder(ById(), a, b);
  }

  /** Rewards that are handed out are handed out for the same entries in any order; they make up the
      reward of the epoch unless products exceed 128 bits by more than the total stake. */
  lemma RewardsForgetOrder(a: Stakes, b: Stakes, epochs: u64, rewards: seq<ValidatorReward>) returns (reward: nat)
    requires multiset(a) == multiset(b) && Outcome(SortById(a), epochs, Ok(rewards))
    ensures Outcome(SortById(b), epochs, Ok(rewards))
    ensures
      var s := SortById(b);
      && TotalStake(s) <= U128_MAX && EpochReward(TotalStake(s), epochs) == Ok(reward)
      && Paid(rewards) <= reward && (Excess(s, reward) <= TotalStake(s) ==> Paid(rewards) == reward)
  {
    FaultlessMeans(SortById(a));
    SortOfDistinct(a, b);
    SortSorts(b);
    reward := HandedOutIsSettled(SortById(b), epochs, rewards);
    PaidWhenCloseEnough(SortById(b), TotalStake(SortById(b)), reward, rewards);
    PaidInFull(SortById(b), TotalStake(SortById(b)), reward, rewards);
  }

  /** The entries of one validator, in order. */
  function OfId(s: Stakes, id: u32): Stakes {
    if s == [] then [] else OfId(s[..|s| - 1], id) + OfOne(s[|s| - 1], id)
  }

  function OfOne(v: ValidatorStake, id: u32): Stakes {
    if v.id == id then [v] else []
  }

  lemma OfIdOneMore(s: Stakes, v: ValidatorStake, id: u32)
    ensures OfId(s + [v], id) == OfId(s, id) + OfOne(v, id)
  {
    assert (s + [v])[..|s|] == s;
  }

  /** Placing keeps the entries of one validator in order. */
  lemma {:induction false} PlaceKeepsOrder(s: Stakes, v: ValidatorStake, id: u32)
    ensures OfId(Sorting.Place(ById(), s, v), id) == OfId(s, id) + OfOne(v, id)
  {
    hide OfId;
    OfIdOneMore(s, v, id);
    if s == [] {
      assert [] + [v] == [v];
    } else if s[|s| - 1].id > v.id {
      var front, last := s[..|s| - 1], s[|s| - 1];
      PlaceKeepsOrder(front, v, id);
      OfIdOneMore(Sorting.Place(ById(), front, v), last, id);
      OfIdOneMore(front, last, id);
      assert s == front + [last];
      TwoOfOne(v, last, id);
      assert OfId(front, id) + OfOne(v, id) + OfOne(last, id) == OfId(front, id) + (OfOne(v, id) + OfOne(last, id));
    }
  }

  lemma TwoOfOne(v: ValidatorStake, w: ValidatorStake, id: u32)
    requires v.id != w.id
    ensures OfOne(v, id) + OfOne(w, id) == OfOne(w, id) + OfOne(v, id)
  {
  }

  /** The sort is stable. */
  lemma {:induction false} SortKeepsOrder(s: Stakes, id: u32)
    ensures OfId(SortById(s), id) == OfId(s, id)
  {
    if s != [] {
      SortKeepsOrder(s[..|s| - 1], id);
      PlaceKeepsOrder(SortById(s[..|s| - 1]), s[|s| - 1], id);
    }
  }

  lemma {:induction false} OfIdCounts(s: Stakes, id: u32, v: ValidatorStake)
    ensures multiset(OfId(s, id))[v] == if v.id == id then multiset(s)[v] else 0
  {
    if s != [] {
      OfIdCounts(s[..|s| - 1], id, v);
      assert s == s[..|s| - 1] + [s[|s| - 1]];
    }
  }

  lemma OfIdForgetsOrder(a: Stakes, b: Stakes, id: u32)
    requires multiset(a) == multiset(b)
    ensures multiset(OfId(a, id)) == multiset(OfId(b, id)) && |OfId(a, id)| == |OfId(b, id)|
  {
    forall v
      ensures multiset(OfId(a, id))[v] == multiset(OfId(b, id))[v]
    {
      OfIdCounts(a, id, v);
      OfIdCounts(b, id, v);
    }
    Sorting.SameSize(OfId(a, id), OfId(b, id));
  }

  /** What the entries of one validator are rejected for. */
  function FaultOf(g: Stakes): Option<RewardError> {
    if g == [] || (|g| == 1 && HasStake(g[0])) then None
    else if !HasStake(g[0]) || !HasStake(g[1]) then Some(InvalidValidatorStake)
    else Some(DuplicateValidator)
  }

  /** Nothing is wrong with the entries of smaller identifiers. */
  ghost predicate FaultlessBelow(s: Stakes, id: u32) {
    forall lower: u32 :: lower < id ==> FaultOf(OfId(s, lower)).None?
  }

  lemma {:induction false} OfIdHolds(s: Stakes, id: u32)
    ensures forall v :: v in OfId(s, id) <==> v in s && v.id == id
  {
    if s != [] {
      OfIdHolds(s[..|s| - 1], id);
      assert s == s[..|s| - 1] + [s[|s| - 1]];
    }
  }

  lemma {:induction false} FaultlessHasOne(s: Stakes, id: u32)
    requires FirstFault(s).None?
    ensures FaultOf(OfId(s, id)).None?
  {
    if s != [] {
      var front, last := s[..|s| - 1], s[|s| - 1];
      FaultlessHasOne(front, id);
      OfIdHolds(front, id);
      FaultlessMeans(s);
      assert last.id == id ==> forall i :: 0 <= i < |front| ==> front[i].id != s[|s| - 1].id;
      assert OfId(front, id) != [] ==> OfId(front, id)[0] in front;
      assert HasStake(s[|s| - 1]);
    }
  }

  /** A sorted list is rejected for the entries of the smallest identifier with which something is wrong. */
  lemma {:induction false} FaultOfSmallest(s: Stakes) returns (id: u32)
    requires Ascending(s) && FirstFault(s).Some?
    ensures FaultOf(OfId(s, id)) == FirstFault(s) && FaultlessBelow(s, id)
  {
    hide OfId;
    var front, last := s[..|s| - 1], s[|s| - 1];
    assert s == front + [last];
    forall x: u32
      ensures OfId(s, x) == OfId(front, x) + OfOne(last, x)
    {
      OfIdOneMore(front, last, x);
    }
    if FirstFault(front).Some? {
      id := FaultOfSmallest(front);
      OfIdHolds(front, id);
      assert OfId(front, id)[0] in front;
      forall lower: u32 | lower < id
        ensures FaultOf(OfId(s, lower)).None?
      {
        assert OfId(s, lower) == OfId(front, lower);
      }
    } else {
      id := last.id;
      forall lower: u32 | lower < id
        ensures FaultOf(OfId(s, lower)).None?
      {
        FaultlessHasOne(front, lower);
      }
      FaultlessHasOne(front, id);
      OfIdHolds(front, id);
      if HasStake(last) {
        var i :| 0 <= i < |s| - 1 && s[i].id == last.id;
        assert front[i] in OfId(front, id);
      }
    }
  }

  /** The same, with the entries as they came in. */
  lemma FaultOfInput(a: Stakes, id: u32)
    requires FaultOf(OfId(a, id)).Some? && FaultlessBelow(a, id)
    ensures FirstFault(SortById(a)) == FaultOf(OfId(a, id))
  {
    hide OfId, FirstFault, SortById, FaultOf;
    SortSorts(a);
    SortKeepsOrder(a, id);
    if FirstFault(SortById(a)).None? {
      FaultlessHasOne(SortById(a), id);
    }
    var smallest := FaultOfSmallest(SortById(a));
    SortKeepsOrder(a, smallest);
    assert !(id < smallest);
  }

  /** The entries of one validator hold one without stake, and two with stake. */
  ghost predicate IsMixed(g: Stakes) {
    && (exists v :: v in g && !HasStake(v))
    && (exists v, w :: multiset{v, w} <= multiset(g) && HasStake(v) && HasStake(w))
  }

  /** Some order of the same entries has another outcome. */
  ghost predicate OrderMatters(a: Stakes, epochs: u64) {
    exists b, r, q :: multiset(b) == multiset(a) && Outcome(SortById(a), epochs, r) && Outcome(SortById(b), epochs, q)
      && r != q
  }

  lemma FlawsForgetOrder(a: Stakes, b: Stakes, id: u32)
    requires multiset(a) == multiset(b)
    ensures FaultOf(OfId(a, id)).None? <==> FaultOf(OfId(b, id)).None?
  {
    hide OfId;
    var g, h := OfId(a, id), OfId(b, id);
    OfIdForgetsOrder(a, b, id);
    if |g| == 1 {
      assert g[0] in multiset(h);
    }
  }

  /** Entries that are rejected in two ways are mixed. */
  lemma TwoFaultsAreMixed(g: Stakes, h: Stakes)
    requires multiset(g) == multiset(h) && FaultOf(g).Some? && FaultOf(h).Some? && FaultOf(g) != FaultOf(h)
    ensures IsMixed(g)
  {
    var x := if FaultOf(g).value.DuplicateValidator? then g else h;
    var y := if FaultOf(g).value.DuplicateValidator? then h else g;
    assert x == [x[0]] + [x[1]] + x[2..];
    assert multiset{x[0], x[1]} <= multiset(g);
    var v :| v in y && !HasStake(v);
    assert v in multiset(g);
  }

  lemma OfIdFront(v: ValidatorStake, s: Stakes, id: u32)
    ensures OfId([v] + s, id) == OfOne(v, id) + OfId(s, id)
  {
    hide OfId;
    if s == [] {
      OfIdOneMore([], v, id);
      assert [v] + s == [] + [v];
      OfIdNone(id);
    } else {
      var front, last := s[..|s| - 1], s[|s| - 1];
      OfIdFront(v, front, id);
      OfIdOneMore([v] + front, last, id);
      OfIdOneMore(front, last, id);
      assert [v] + s == [v] + front + [last] && s == front + [last];
    }
  }

  lemma OfIdNone(id: u32)
    ensures OfId([], id) == []
  {
  }

  /** Any entry can be put first. */
  lemma PutFirst(s: Stakes, v: ValidatorStake) returns (rest: Stakes)
    requires v in s
    ensures multiset([v] + rest) == multiset(s) && multiset(rest) == multiset(s) - multiset{v}
  {
    var k :| 0 <= k < |s| && s[k] == v;
    rest := s[..k] + s[k + 1..];
    assert s == s[..k] + [v] + s[k + 1..];
  }

  /** With an entry without stake first, that is what is reported. */
  lemma ZeroFirst(a: Stakes, id: u32) returns (b: Stakes)
    requires IsMixed(OfId(a, id)) && FaultlessBelow(a, id)
    ensures multiset(b) == multiset(a) && FirstFault(SortById(b)) == Some(InvalidValidatorStake)
  {
    OfIdHolds(a, id);
    var z :| z in OfId(a, id) && !HasStake(z);
    var rest := PutFirst(a, z);
    b := [z] + rest;
    OfIdFront(z, rest, id);
    forall lower: u32 | lower < id
      ensures FaultOf(OfId(b, lower)).None?
    {
      FlawsForgetOrder(a, b, lower);
    }
    FaultOfInput(b, id);
  }

  /** With two entries with stake first, the repetition is reported. */
  lemma TwiceFirst(a: Stakes, id: u32) returns (b: Stakes)
    requires IsMixed(OfId(a, id)) && FaultlessBelow(a, id)
    ensures multiset(b) == multiset(a) && FirstFault(SortById(b)) == Some(DuplicateValidator)
  {
    hide OfId, SortById, FirstFault;
    var v, w, rest := PairFirst(a, id);
    b := [v] + ([w] + rest);
    OfIdFront(v, [w] + rest, id);
    OfIdFront(w, rest, id);
    forall lower: u32 | lower < id
      ensures FaultOf(OfId(b, lower)).None?
    {
      FlawsForgetOrder(a, b, lower);
    }
    FaultOfInput(b, id);
  }

  lemma PairFirst(a: Stakes, id: u32) returns (v: ValidatorStake, w: ValidatorStake, rest: Stakes)
    requires IsMixed(OfId(a, id))
    ensures multiset([v] + ([w] + rest)) == multiset(a) && v.id == w.id == id && HasStake(v) && HasStake(w)
  {
    hide OfId;
    var g := OfId(a, id);
    v, w :| multiset{v, w} <= multiset(g) && HasStake(v) && HasStake(w);
    assert v in multiset(g) && w in multiset(g);
    OfIdHolds(a, id);
    OfIdCounts(a, id, v);
    OfIdCounts(a, id, w);
    var others := PutFirst(a, v);
    assert multiset{v, w}[w] <= multiset(g)[w];
    assert w in multiset(others);
    rest := PutFirst(others, w);
    assert multiset([v] + ([w] + rest)) == multiset{v} + multiset([w] + rest);
    assert multiset([v] + others) == multiset{v} + multiset(others);
  }

  lemma OrderMattersOnlyWhenMixed(a: Stakes, epochs: u64) returns (id: u32)
    requires OrderMatters(a, epochs)
    ensures IsMixed(OfId(a, id)) && FaultlessBelow(a, id)
  {
    hide OfId, FirstFault, SortById, FaultOf, Outcome, IsMixed;
    var b, r, q :| multiset(b) == multiset(a) && Outcome(SortById(a), epochs, r) && Outcome(SortById(b), epochs, q)
      && r != q;
    SomeFaultOfBoth(a, b, epochs, r, q);
    SortSorts(a);
    SortSorts(b);
    id := FaultOfSmallest(SortById(a));
    var other := FaultOfSmallest(SortById(b));
    forall x: u32
      ensures OfId(SortById(a), x) == OfId(a, x) && OfId(SortById(b), x) == OfId(b, x)
      ensures FaultOf(OfId(a, x)).None? <==> FaultOf(OfId(b, x)).None?
    {
      SortKeepsOrder(a, x);
      SortKeepsOrder(b, x);
      FlawsForgetOrder(a, b, x);
    }
    assert !(id < other) && !(other < id);
    OfIdForgetsOrder(a, b, id);
    TwoFaultsAreMixed(OfId(a, id), OfId(b, id));
  }

  /** Different outcomes of one and the same entries are different errors of the check. */
  lemma SomeFaultOfBoth(a: Stakes, b: Stakes, epochs: u64, r: Result<seq<ValidatorReward>, RewardError>,
                        q: Result<seq<ValidatorReward>, RewardError>)
    requires multiset(a) == multiset(b) && Outcome(SortById(a), epochs, r) && Outcome(SortById(b), epochs, q) && r != q
    ensures FirstFault(SortById(a)).Some? && FirstFault(SortById(b)).Some?
    ensures FirstFault(SortById(a)) != FirstFault(SortById(b))
  {
    FaultlessMeans(SortById(a));
    FaultlessMeans(SortById(b));
    if FirstFault(SortById(a)).None? {
      SortOfDistinct(a, b);
      OutcomeIsUnique(SortById(a), epochs, r, q);
    } else if FirstFault(SortById(b)).None? {
      SortOfDistinct(b, a);
      OutcomeIsUnique(SortById(a), epochs, r, q);
    }
  }

  /**
   The order of the input decides the outcome exactly when the smallest identifier with which something is
   wrong has an entry without stake as well as two with stake.
   */
  lemma OrderMattersExactlyWhenMixed(a: Stakes, epochs: u64)
    ensures OrderMatters(a, epochs) <==> exists id: u32 :: IsMixed(OfId(a, id)) && FaultlessBelow(a, id)
  {
    if OrderMatters(a, epochs) {
      var id := OrderMattersOnlyWhenMixed(a, epochs);
    }
    if id: u32 :| IsMixed(OfId(a, id)) && FaultlessBelow(a, id) {
      var zero := ZeroFirst(a, id);
      var twice := TwiceFirst(a, id);
      var b := if FirstFault(SortById(a)) == Some(InvalidValidatorStake) then twice else zero;
      MixedIsFault(a, id);
      assert Outcome(SortById(a), epochs, Err(FirstFault(SortById(a)).value));
      assert Outcome(SortById(b), epochs, Err(FirstFault(SortById(b)).value));
    }
  }

  lemma MixedIsFault(a: Stakes, id: u32)
    requires IsMixed(OfId(a, id)) && FaultlessBelow(a, id)
    ensures FirstFault(SortById(a)).Some?
  {
    hide *;
    MixedIsRejected(OfId(a, id));
    FaultOfInput(a, id);
  }

  lemma MixedIsRejected(g: Stakes)
    requires IsMixed(g)
    ensures FaultOf(g).Some?
  {
    var v :| v in g && !HasStake(v);
  }
}
