/**
 Migration of shard states (crates/protocol/onx-sharding/src/pipeline.rs).
 rank is the message hash as a number, by which queues break ties of logical time.
 */
module ShardPipelines {
  import opened Wrappers
  import opened Bytes
  import opened ShardIdents
  import opened Messages
  import opened AccountStates
  import opened MessageOrder
  import Sorting
  import opened Sharding

  type Accounts = map<AccountId, AccountState>

  datatype ShardState = ShardState(shard: ShardIdent, accounts: Accounts, pending: seq<Message>) {
    /** Every account and every message destination belongs to the shard. */
    ghost predicate Owned() {
      && (forall a :: a in accounts ==> shard.Owns(a))
      && (forall m :: m in pending ==> m.ValidateDestShard(shard).Ok?)
    }
  }

  method ValidateOwnership(state: ShardState) returns (r: Result<(), ShardingError>)
    ensures r.Ok? <==> state.Owned()
    ensures r.Err? ==> r.error == if forall a :: a in state.accounts ==> state.shard.Owns(a) then MessageOutsideShard
      else AccountOutsideShard
  {
    var rest := state.accounts.Keys;
    while rest != {}
      invariant rest <= state.accounts.Keys
      invariant forall a :: a in state.accounts.Keys - rest ==> state.shard.Owns(a)
      decreases |rest|
    {
      var a :| a in rest;
      if state.shard.ContainsAccount(a) != Ok(true) {
        return Err(AccountOutsideShard);
      }
      rest := rest - {a};
    }
    for i := 0 to |state.pending|
      invariant forall j :: 0 <= j < i ==> state.pending[j].ValidateDestShard(state.shard).Ok?
    {
      if state.pending[i].ValidateDestShard(state.shard).Err? {
        return Err(MessageOutsideShard);
      }
    }
    r := Ok(());
  }

  function AccountsIn(accounts: Accounts, shard: ShardIdent): Accounts {
    map a | a in accounts && shard.Owns(a) :: accounts[a]
  }

  /** The messages bound for the shard, in their order. */
  function MessagesFor(messages: seq<Message>, shard: ShardIdent): seq<Message> {
    if messages == [] then []
    else
      var front := MessagesFor(messages[..|messages| - 1], shard);
      if messages[|messages| - 1].ValidateDestShard(shard).Ok? then front + [messages[|messages| - 1]] else front
  }

  function Part(rank: Rank, parent: ShardState, shard: ShardIdent): ShardState {
    ShardState(shard, AccountsIn(parent.accounts, shard), Sort(rank, MessagesFor(parent.pending, shard)))
  }

  /** The shards left and right divide the accounts of parent between them. */
  ghost predicate Divides(parent: ShardIdent, left: ShardIdent, right: ShardIdent) {
    && left.workchain == parent.workchain == right.workchain
    && forall a :: (parent.Owns(a) <==> left.Owns(a) || right.Owns(a)) && !(left.Owns(a) && right.Owns(a))
  }

  lemma ChildrenDivide(parent: ShardIdent)
    requires SplitLeaf(parent).Ok?
    ensures Divides(parent, SplitLeaf(parent).value.0, SplitLeaf(parent).value.1)
  {
    SplitPartitions(parent, seq(32, _ => 0));
    forall a {
      SplitPartitions(parent, a);
    }
  }

  /** A message of the parent is bound for exactly one child. */
  lemma MessageGoesToOneChild(parent: ShardIdent, left: ShardIdent, right: ShardIdent, m: Message)
    requires Divides(parent, left, right)
    ensures m.ValidateDestShard(parent).Ok? <==> m.ValidateDestShard(left).Ok? || m.ValidateDestShard(right).Ok?
    ensures !(m.ValidateDestShard(left).Ok? && m.ValidateDestShard(right).Ok?)
  {
    DestinationIsOwned(parent, m);
    DestinationIsOwned(left, m);
    DestinationIsOwned(right, m);
  }

  lemma DestinationIsOwned(shard: ShardIdent, m: Message)
    ensures m.ValidateDestShard(shard).Ok? <==> shard.workchain == m.dest.workchain && shard.Owns(m.dest.account)
  {
  }

  method SplitAccounts(accounts: Accounts, left: ShardIdent, right: ShardIdent) returns (l: Accounts, r: Accounts)
    requires forall a :: a in accounts ==> (left.Owns(a) <==> !right.Owns(a))
    ensures l == AccountsIn(accounts, left) && r == AccountsIn(accounts, right)
  {
    hide AccountsIn, ShardIdent.Owns;
    l, r := map[], map[];
    var rest := accounts.Keys;
    assert accounts - rest == map[];
    NoAccounts(left);
    NoAccounts(right);
    while rest != {}
      invariant rest <= accounts.Keys
      invariant l == AccountsIn(accounts - rest, left) && r == AccountsIn(accounts - rest, right)
      decreases |rest|
    {
      var a :| a in rest;
      OneMoreAccount(accounts - rest, left, a, accounts[a]);
      OneMoreAccount(accounts - rest, right, a, accounts[a]);
      OneKeyMore(accounts, rest, a);
      if left.Owns(a) {
        l := l[a := accounts[a]];
      } else {
        r := r[a := accounts[a]];
      }
      rest := rest - {a};
    }
    assert accounts - rest == accounts;
  }

  lemma NoAccounts(shard: ShardIdent)
    ensures AccountsIn(map[], shard) == map[]
  {
  }

  lemma OneKeyMore(accounts: Accounts, rest: set<AccountId>, a: AccountId)
    requires a in rest && rest <= accounts.Keys
    ensures accounts - (rest - {a}) == (accounts - rest)[a := accounts[a]]
  {
  }

  lemma OneMoreAccount(accounts: Accounts, shard: ShardIdent, a: AccountId, state: AccountState)
    ensures shard.Owns(a) ==> AccountsIn(accounts[a := state], shard) == AccountsIn(accounts, shard)[a := state]
    ensures !shard.Owns(a) && a !in accounts ==> AccountsIn(accounts[a := state], shard) == AccountsIn(accounts, shard)
  {
  }

  method SplitMessages(messages: seq<Message>, left: ShardIdent, right: ShardIdent)
    returns (outcome: Result<(seq<Message>, seq<Message>), ShardingError>)
    requires forall m :: m in messages ==> !(m.ValidateDestShard(left).Ok? && m.ValidateDestShard(right).Ok?)
    ensures outcome.Ok? <==> forall m :: m in messages ==>
      m.ValidateDestShard(left).Ok? || m.ValidateDestShard(right).Ok?
    ensures outcome.Ok? ==> outcome.value == (MessagesFor(messages, left), MessagesFor(messages, right))
  {
    var l, r: seq<Message> := [], [];
    for i := 0 to |messages|
      invariant l == MessagesFor(messages[..i], left) && r == MessagesFor(messages[..i], right)
      invariant forall j :: 0 <= j < i ==>
        messages[j].ValidateDestShard(left).Ok? || messages[j].ValidateDestShard(right).Ok?
    {
      assert messages[..i + 1][..i] == messages[..i];
      var message := messages[i];
      if message.ValidateDestShard(left).Ok? {
        l := l + [message];
      } else if message.ValidateDestShard(right).Ok? {
        r := r + [message];
      } else {
        return Err(MessageOutsideShard);
      }
    }
    assert messages[..|messages|] == messages;
    outcome := Ok((l, r));
  }

  /** Moves each account and each message to the child shard that it belongs to. */
  method SplitShardState(rank: Rank, parent: ShardState) returns (r: Result<(ShardState, ShardState), ShardingError>)
    ensures r.Ok? <==> parent.Owned() && SplitLeaf(parent.shard).Ok?
    ensures r.Ok? ==>
      var (left, right) := SplitLeaf(parent.shard).value;
      r.value == (Part(rank, parent, left), Part(rank, parent, right))
  {
    var checked := ValidateOwnership(parent);
    if checked.Err? {
      return Err(checked.error);
    }
    var children :- SplitLeaf(parent.shard);
    var (left, right) := children;
    ChildrenDivide(parent.shard);
    forall m {
      MessageGoesToOneChild(parent.shard, left, right, m);
    }
    var l, r' := SplitAccounts(parent.accounts, left, right);
    var queues := SplitMessages(parent.pending, left, right);
    if queues.Err? {
      return Err(MessageOutsideShard);
    }
    r := Ok((ShardState(left, l, Sort(rank, queues.value.0)), ShardState(right, r', Sort(rank, queues.value.1))));
  }

  /** What two sibling states merge into. */
  function Merged(rank: Rank, first: ShardState, second: ShardState, parent: ShardIdent): ShardState {
    ShardState(parent, first.accounts + second.accounts, Sort(rank, first.pending + second.pending))
  }

  method MergeShardStates(rank: Rank, first: ShardState, second: ShardState)
    returns (r: Result<ShardState, ShardingError>)
    ensures r.Ok? <==> first.Owned() && second.Owned() && CommonParent(first.shard, second.shard).Ok?
    ensures r.Ok? ==> r.value == Merged(rank, first, second, CommonParent(first.shard, second.shard).value)
  {
    var checked := ValidateOwnership(first);
    if checked.Err? {
      return Err(checked.error);
    }
    checked := ValidateOwnership(second);
    if checked.Err? {
      return Err(checked.error);
    }
    var parent :- CommonParent(first.shard, second.shard);
    r := Ok(Merged(rank, first, second, parent));
  }

  // ---------- One split and one merge ----------

  lemma {:induction false} MessagesAreDivided(messages: seq<Message>, left: ShardIdent, right: ShardIdent)
    requires forall m :: m in messages ==> m.ValidateDestShard(left).Ok? || m.ValidateDestShard(right).Ok?
    requires forall m :: m in messages ==> !(m.ValidateDestShard(left).Ok? && m.ValidateDestShard(right).Ok?)
    ensures multiset(MessagesFor(messages, left)) + multiset(MessagesFor(messages, right)) == multiset(messages)
  {
    if messages != [] {
      MessagesAreDivided(messages[..|messages| - 1], left, right);
      Sorting.LastApart(messages);
    }
  }

  lemma {:induction false} MessagesForAreBound(messages: seq<Message>, shard: ShardIdent)
    ensures forall m :: m in MessagesFor(messages, shard) ==> m.ValidateDestShard(shard).Ok?
  {
    if messages != [] {
      MessagesForAreBound(messages[..|messages| - 1], shard);
    }
  }

  lemma SortKeepsMembers(rank: Rank, s: seq<Message>)
    ensures forall m :: m in Sort(rank, s) <==> m in s
  {
    SortSorts(rank, s);
    forall m
      ensures m in Sort(rank, s) <==> m in s
    {
      assert m in multiset(Sort(rank, s)) <==> m in multiset(s);
    }
  }

  lemma PartIsOwned(rank: Rank, parent: ShardState, shard: ShardIdent)
    ensures Part(rank, parent, shard).Owned()
  {
    MessagesForAreBound(parent.pending, shard);
    SortKeepsMembers(rank, MessagesFor(parent.pending, shard));
  }

  /** A split loses and copies nothing. */
  lemma SplitConserves(rank: Rank, parent: ShardState, left: ShardIdent, right: ShardIdent)
    requires parent.Owned() && Divides(parent.shard, left, right)
    ensures
      var l, r := Part(rank, parent, left), Part(rank, parent, right);
      && l.Owned() && r.Owned() && l.accounts.Keys !! r.accounts.Keys
      && l.accounts + r.accounts == parent.accounts == r.accounts + l.accounts
      && multiset(l.pending) + multiset(r.pending) == multiset(parent.pending)
  {
    PartIsOwned(rank, parent, left);
    PartIsOwned(rank, parent, right);
    forall m {
      MessageGoesToOneChild(parent.shard, left, right, m);
    }
    MessagesAreDivided(parent.pending, left, right);
    SortSorts(rank, MessagesFor(parent.pending, left));
    SortSorts(rank, MessagesFor(parent.pending, right));
  }

  lemma SiblingsDivide(first: ShardIdent, second: ShardIdent, parent: ShardIdent)
    requires CommonParent(first, second) == Ok(parent)
    ensures Divides(parent, first, second)
  {
    hide SplitLeaf, CommonParent, ShardIdent.Owns;
    ChildrenOfParent(first, second);
    ChildrenDivide(parent);
  }

  lemma SiblingAccounts(first: ShardState, second: ShardState, parent: ShardIdent)
    requires first.Owned() && second.Owned() && Divides(parent, first.shard, second.shard)
    ensures first.accounts.Keys !! second.accounts.Keys && first.accounts + second.accounts
      == second.accounts + first.accounts
    ensures forall a :: a in first.accounts + second.accounts ==> parent.Owns(a)
  {
    hide ShardIdent.Owns;
  }

  /** A merge of siblings overwrites no account and loses no message. */
  lemma MergeConserves(rank: Rank, first: ShardState, second: ShardState, parent: ShardIdent)
    requires first.Owned() && second.Owned() && CommonParent(first.shard, second.shard) == Ok(parent)
    ensures
      var m := Merged(rank, first, second, parent);
      && m.Owned() && first.accounts.Keys !! second.accounts.Keys && Divides(parent, first.shard, second.shard)
      && m.accounts == second.accounts + first.accounts
      && multiset(m.pending) == multiset(first.pending) + multiset(second.pending)
  {
    hide SplitLeaf, CommonParent, ShardIdent.Owns, ShardIdent.PrefixLen;
    SiblingsDivide(first.shard, second.shard, parent);
    SiblingAccounts(first, second, parent);
    hide Sort;
    var queue := first.pending + second.pending;
    SortSorts(rank, queue);
    SortKeepsMembers(rank, queue);
    forall m | m in Sort(rank, queue)
      ensures m.ValidateDestShard(parent).Ok?
    {
      MessageGoesToOneChild(parent, first.shard, second.shard, m);
    }
  }

  /** Merging the two halves of a split, in either order, gives back the shard with its accounts
      and with its queue in (time, hash) order. */
  lemma SplitThenMerge(rank: Rank, parent: ShardState)
    requires parent.Owned() && SplitLeaf(parent.shard).Ok? && HashesDiffer(rank, multiset(parent.pending))
    ensures
      var (left, right) := SplitLeaf(parent.shard).value;
      var l, r := Part(rank, parent, left), Part(rank, parent, right);
      var sorted := parent.(pending := Sort(rank, parent.pending));
      && CommonParent(left, right) == Ok(parent.shard) == CommonParent(right, left)
      && Merged(rank, l, r, parent.shard) == sorted == Merged(rank, r, l, parent.shard)
  {
    var (left, right) := SplitLeaf(parent.shard).value;
    ParentOfChildren(parent.shard);
    ChildrenDivide(parent.shard);
    SplitConserves(rank, parent, left, right);
    var l, r := Part(rank, parent, left), Part(rank, parent, right);
    assert multiset(l.pending + r.pending) == multiset(parent.pending) == multiset(r.pending + l.pending);
    SortForgetsOrder(rank, parent.pending, l.pending + r.pending);
    SortForgetsOrder(rank, parent.pending, r.pending + l.pending);
  }

  // ---------- Whole runs ----------

  /** The number of active shards that an account belongs to. */
  ghost function Owners(states: seq<ShardState>, a: AccountId): nat {
    if states == [] then 0 else Owners(states[..|states| - 1], a) + if states[|states| - 1].shard.Owns(a) then 1 else 0
  }

  ghost function AllAccounts(states: seq<ShardState>): set<(AccountId, AccountState)> {
    if states == [] then {} else AllAccounts(states[..|states| - 1]) + states[|states| - 1].accounts.Items
  }

  ghost function AllMessages(states: seq<ShardState>): multiset<Message> {
    if states == [] then multiset{} else AllMessages(states[..|states| - 1]) + multiset(states[|states| - 1].pending)
  }

  lemma LastOfConcat(s: seq<ShardState>, t: seq<ShardState>)
    requires t != []
    ensures (s + t)[..|s + t| - 1] == s + t[..|t| - 1] && (s + t)[|s + t| - 1] == t[|t| - 1]
  {
  }

  lemma {:induction false} OwnersOfConcat(s: seq<ShardState>, t: seq<ShardState>, a: AccountId)
    ensures Owners(s + t, a) == Owners(s, a) + Owners(t, a)
  {
    hide ShardIdent.Owns;
    if t == [] {
      assert s + t == s;
    } else {
      LastOfConcat(s, t);
      OwnersOfConcat(s, t[..|t| - 1], a);
    }
  }

  lemma {:induction false} AccountsOfConcat(s: seq<ShardState>, t: seq<ShardState>)
    ensures AllAccounts(s + t) == AllAccounts(s) + AllAccounts(t)
  {
    if t == [] {
      assert s + t == s;
    } else {
      LastOfConcat(s, t);
      AccountsOfConcat(s, t[..|t| - 1]);
      var last := t[|t| - 1].accounts.Items;
      assert AllAccounts(s) + (AllAccounts(t[..|t| - 1]) + last) == (AllAccounts(s) + AllAccounts(t[..|t| - 1])) + last;
    }
  }

  lemma {:induction false} MessagesOfConcat(s: seq<ShardState>, t: seq<ShardState>)
    ensures AllMessages(s + t) == AllMessages(s) + AllMessages(t)
  {
    if t == [] {
      assert s + t == s;
    } else {
      LastOfConcat(s, t);
      MessagesOfConcat(s, t[..|t| - 1]);
      var last := multiset(t[|t| - 1].pending);
      assert AllMessages(s) + (AllMessages(t[..|t| - 1]) + last) == (AllMessages(s) + AllMessages(t[..|t| - 1])) + last;
    }
  }

  lemma TotalsOfConcat(s: seq<ShardState>, t: seq<ShardState>, a: AccountId)
    ensures Owners(s + t, a) == Owners(s, a) + Owners(t, a)
    ensures AllAccounts(s + t) == AllAccounts(s) + AllAccounts(t)
    ensures AllMessages(s + t) == AllMessages(s) + AllMessages(t)
  {
    hide *;
    OwnersOfConcat(s, t, a);
    AccountsOfConcat(s, t);
    MessagesOfConcat(s, t);
  }

  function Without<T>(s: seq<T>, i: nat): seq<T>
    requires i < |s|
  {
    s[..i] + s[i + 1..]
  }

  /** The totals of states with the one at index i taken apart. */
  lemma TotalsWithOne(states: seq<ShardState>, i: nat, a: AccountId)
    requires i < |states|
    ensures
      var rest, one := Without(states, i), states[i];
      && Owners(states, a) == Owners(rest, a) + (if one.shard.Owns(a) then 1 else 0)
      && AllAccounts(states) == AllAccounts(rest) + one.accounts.Items
      && AllMessages(states) == AllMessages(rest) + multiset(one.pending)
  {
    assert states == states[..i] + [states[i]] + states[i + 1..];
    TotalsOfConcat(states[..i] + [states[i]], states[i + 1..], a);
    TotalsOfConcat(states[..i], [states[i]], a);
    TotalsOfConcat(states[..i], states[i + 1..], a);
    TotalsOfOne(states[i], a);
  }

  lemma TotalsOfOne(state: ShardState, a: AccountId)
    ensures Owners([state], a) == if state.shard.Owns(a) then 1 else 0
    ensures AllAccounts([state]) == state.accounts.Items && AllMessages([state]) == multiset(state.pending)
  {
    assert [state][..0] == [];
  }

  datatype Transition = Split(i: nat) | Merge(i: nat, j: nat)

  /** One committed transition: shard i is split, or shards i and j are merged. */
  ghost predicate Next(rank: Rank, states: seq<ShardState>, t: Transition, states': seq<ShardState>) {
    match t
    case Split(i) =>
      && i < |states| && states[i].Owned() && SplitLeaf(states[i].shard).Ok?
      && var (left, right) := SplitLeaf(states[i].shard).value;
         states' == Without(states, i) + [Part(rank, states[i], left), Part(rank, states[i], right)]
    case Merge(i, j) =>
      && i < |states| && j < |states| && i != j && states[i].Owned() && states[j].Owned()
      && CommonParent(states[i].shard, states[j].shard).Ok?
      && states' == WithoutBoth(states, i, j) + [Merged(rank, states[i], states[j],
         CommonParent(states[i].shard, states[j].shard).value)]
  }

  /** Nothing is lost or copied between origin and states. */
  ghost predicate Conserved(origin: ShardState, states: seq<ShardState>) {
    && (forall k :: 0 <= k < |states| ==> states[k].Owned())
    && (forall a :: Owners(states, a) == if origin.shard.Owns(a) then 1 else 0)
    && AllAccounts(states) == origin.accounts.Items
    && AllMessages(states) == multiset(origin.pending)
  }

  lemma SplitTotals(rank: Rank, states: seq<ShardState>, i: nat, left: ShardIdent, right: ShardIdent, a: AccountId)
    requires i < |states| && states[i].Owned() && Divides(states[i].shard, left, right)
    ensures
      var states' := Without(states, i) + [Part(rank, states[i], left), Part(rank, states[i], right)];
      && Owners(states', a) == Owners(states, a)
      && AllAccounts(states') == AllAccounts(states) && AllMessages(states') == AllMessages(states)
  {
    var rest, one := Without(states, i), states[i];
    var l, r := Part(rank, one, left), Part(rank, one, right);
    SplitConserves(rank, one, left, right);
    ItemsOfUnion(l.accounts, r.accounts);
    assert [l, r] == [l] + [r];
    TotalsWithOne(states, i, a);
    TotalsOfConcat(rest, [l, r], a);
    TotalsOfConcat([l], [r], a);
    TotalsOfOne(l, a);
    TotalsOfOne(r, a);
  }

  lemma SplitStepConserves(rank: Rank, origin: ShardState, states: seq<ShardState>, i: nat, states': seq<ShardState>)
    requires Conserved(origin, states) && Next(rank, states, Split(i), states')
    ensures Conserved(origin, states')
  {
    var (left, right) := SplitLeaf(states[i].shard).value;
    ChildrenDivide(states[i].shard);
    hide Divides, Owners, AllAccounts, AllMessages, Part, SplitLeaf, ShardState.Owned;
    forall a
      ensures Owners(states', a) == Owners(states, a)
    {
      SplitTotals(rank, states, i, left, right, a);
    }
    SplitTotals(rank, states, i, left, right, seq(32, _ => 0));
    PartIsOwned(rank, states[i], left);
    PartIsOwned(rank, states[i], right);
    forall k | 0 <= k < |states'|
      ensures states'[k].Owned()
    {
      if k < |states| - 1 {
        assert states'[k] == states[if k < i then k else k + 1];
      }
    }
  }

  lemma ItemsOfUnion(m: Accounts, n: Accounts)
    requires m.Keys !! n.Keys
    ensures (m + n).Items == m.Items + n.Items
  {
    forall item
      ensures item in (m + n).Items <==> item in m.Items || item in n.Items
    {
      assert item in m.Items <==> item.0 in m && m[item.0] == item.1;
      assert item in n.Items <==> item.0 in n && n[item.0] == item.1;
      assert item in (m + n).Items <==> item.0 in m + n && (m + n)[item.0] == item.1;
    }
  }

  /** The states without those at i and j. */
  function WithoutBoth<T>(s: seq<T>, i: nat, j: nat): seq<T>
    requires i < |s| && j < |s| && i != j
  {
    Without(Without(s, i), if j < i then j else j - 1)
  }

  lemma TotalsWithTwo(states: seq<ShardState>, i: nat, j: nat, a: AccountId)
    requires i < |states| && j < |states| && i != j
    ensures
      var rest, x, y := WithoutBoth(states, i, j), states[i], states[j];
      && Owners(states, a) == Owners(rest, a) + (if y.shard.Owns(a) then 1 else 0) + (if x.shard.Owns(a) then 1 else 0)
      && AllAccounts(states) == AllAccounts(rest) + y.accounts.Items + x.accounts.Items
      && AllMessages(states) == AllMessages(rest) + multiset(y.pending) + multiset(x.pending)
  {
    var k := if j < i then j else j - 1;
    assert Without(states, i)[k] == states[j];
    TotalsWithOne(states, i, a);
    TotalsWithOne(Without(states, i), k, a);
  }

  lemma TotalsOneMore(states: seq<ShardState>, m: ShardState, a: AccountId)
    ensures Owners(states + [m], a) == Owners(states, a) + if m.shard.Owns(a) then 1 else 0
    ensures AllAccounts(states + [m]) == AllAccounts(states) + m.accounts.Items
    ensures AllMessages(states + [m]) == AllMessages(states) + multiset(m.pending)
  {
    assert (states + [m])[..|states|] == states;
  }

  lemma MergeTotals(states: seq<ShardState>, i: nat, j: nat, m: ShardState, a: AccountId)
    requires i < |states| && j < |states| && i != j
    requires Divides(m.shard, states[i].shard, states[j].shard)
    requires m.accounts.Items == states[i].accounts.Items + states[j].accounts.Items
    requires multiset(m.pending) == multiset(states[i].pending) + multiset(states[j].pending)
    ensures
      var states' := WithoutBoth(states, i, j) + [m];
      && Owners(states', a) == Owners(states, a)
      && AllAccounts(states') == AllAccounts(states) && AllMessages(states') == AllMessages(states)
  {
    TotalsWithTwo(states, i, j, a);
    TotalsOneMore(WithoutBoth(states, i, j), m, a);
  }

  lemma MergeStepConserves(rank: Rank, origin: ShardState, states: seq<ShardState>, i: nat, j: nat,
      states': seq<ShardState>)
    requires Conserved(origin, states) && Next(rank, states, Merge(i, j), states')
    ensures Conserved(origin, states')
  {
    var parent := CommonParent(states[i].shard, states[j].shard).value;
    MergeConserves(rank, states[i], states[j], parent);
    ItemsOfUnion(states[i].accounts, states[j].accounts);
    var m := Merged(rank, states[i], states[j], parent);
    forall a
      ensures Owners(states', a) == Owners(states, a)
    {
      MergeTotals(states, i, j, m, a);
    }
    MergeTotals(states, i, j, m, seq(32, _ => 0));
    OthersStayOwned(states, i, j, m);
  }

  lemma OthersStayOwned(states: seq<ShardState>, i: nat, j: nat, m: ShardState)
    requires i < |states| && j < |states| && i != j && m.Owned()
    requires forall k :: 0 <= k < |states| ==> states[k].Owned()
    ensures forall k :: 0 <= k < |WithoutBoth(states, i, j) + [m]| ==> (WithoutBoth(states, i, j) + [m])[k].Owned()
  {
    var one := Without(states, i);
    assert forall k :: 0 <= k < |one| ==> one[k] == states[if k < i then k else k + 1];
    var l := if j < i then j else j - 1;
    assert forall k :: 0 <= k < |one| - 1 ==> Without(one, l)[k] == one[if k < l then k else k + 1];
  }

  /** Splits and merges in any order, starting from one owned shard state, always leave every
      account of that shard in exactly one active shard, and conserve the accounts with their
      states and the messages with their multiplicity. */
  lemma {:induction false} RunsConserve(rank: Rank, origin: ShardState, history: seq<seq<ShardState>>,
      transitions: seq<Transition>)
    requires origin.Owned() && |history| == |transitions| + 1 && history[0] == [origin]
    requires forall i :: 0 <= i < |transitions| ==> Next(rank, history[i], transitions[i], history[i + 1])
    ensures Conserved(origin, history[|transitions|])
    decreases |transitions|
  {
    if transitions == [] {
      forall a {
        TotalsOfOne(origin, a);
      }
      TotalsOfOne(origin, seq(32, _ => 0));
    } else {
      var n := |transitions| - 1;
      RunsConserve(rank, origin, history[..n + 1], transitions[..n]);
      match transitions[n]
      case Split(i) => SplitStepConserves(rank, origin, history[n], i, history[n + 1]);
      case Merge(i, j) => MergeStepConserves(rank, origin, history[n], i, j, history[n + 1]);
    }
  }

  ghost predicate AllProper(states: seq<ShardState>) {
    forall k :: 0 <= k < |states| ==> states[k].shard.Proper()
  }

  lemma ParentIsProper(first: ShardIdent, second: ShardIdent)
    requires CommonParent(first, second).Ok?
    ensures CommonParent(first, second).value.Proper()
  {
    ChildrenOfParent(first, second);
  }

  lemma StepKeepsProper(rank: Rank, states: seq<ShardState>, t: Transition, states': seq<ShardState>)
    requires AllProper(states) && Next(rank, states, t, states')
    ensures AllProper(states')
  {
    hide SplitLeaf, CommonParent, ShardIdent.Proper, ShardState.Owned, Part, Merged;
    match t
    case Split(i) =>
      SplitPartitions(states[i].shard, seq(32, _ => 0));
      var (left, right) := SplitLeaf(states[i].shard).value;
      PartsAreOf(rank, states[i], left);
      PartsAreOf(rank, states[i], right);
      assert forall k :: 0 <= k < |states| - 1 ==> states'[k] == states[if k < i then k else k + 1];
    case Merge(i, j) =>
      ParentIsProper(states[i].shard, states[j].shard);
      MergedIsOf(rank, states[i], states[j], CommonParent(states[i].shard, states[j].shard).value);
      var one, l := Without(states, i), if j < i then j else j - 1;
      assert forall k :: 0 <= k < |one| ==> one[k] == states[if k < i then k else k + 1];
      assert forall k :: 0 <= k < |one| - 1 ==> states'[k] == one[if k < l then k else k + 1];
  }

  lemma PartsAreOf(rank: Rank, state: ShardState, child: ShardIdent)
    ensures Part(rank, state, child).shard == child
  {
  }

  lemma MergedIsOf(rank: Rank, first: ShardState, second: ShardState, parent: ShardIdent)
    ensures Merged(rank, first, second, parent).shard == parent
  {
  }

  lemma ProperSplits(s: ShardIdent)
    requires s.Proper()
    ensures SplitLeaf(s).Ok? <==> s.PrefixLen() != Ok(60)
  {
    LenIsSmall(s, s.PrefixLen().value);
  }

  /** In every run every active shard can be split, unless its prefix has 60 bits. */
  lemma {:induction false} RunsSplitDownTo60(rank: Rank, origin: ShardState, history: seq<seq<ShardState>>,
                                             transitions: seq<Transition>, k: nat)
    requires origin.Owned() && origin.shard.Proper() && |history| == |transitions| + 1 && history[0] == [origin]
    requires forall i :: 0 <= i < |transitions| ==> Next(rank, history[i], transitions[i], history[i + 1])
    requires k < |history[|transitions|]|
    ensures
      var state := history[|transitions|][k];
      (exists after :: Next(rank, history[|transitions|], Split(k), after)) <==> state.shard.PrefixLen() != Ok(60)
  {
    RunsConserve(rank, origin, history, transitions);
    RunsKeepProper(rank, origin, history, transitions);
    var states := history[|transitions|];
    ProperSplits(states[k].shard);
    if SplitLeaf(states[k].shard).Ok? {
      var (left, right) := SplitLeaf(states[k].shard).value;
      assert Next(rank, states, Split(k), Without(states, k)
        + [Part(rank, states[k], left), Part(rank, states[k], right)]);
    }
  }

  lemma {:induction false} RunsKeepProper(rank: Rank, origin: ShardState, history: seq<seq<ShardState>>,
      transitions: seq<Transition>)
    requires origin.shard.Proper() && |history| == |transitions| + 1 && history[0] == [origin]
    requires forall i :: 0 <= i < |transitions| ==> Next(rank, history[i], transitions[i], history[i + 1])
    ensures AllProper(history[|transitions|])
    decreases |transitions|
  {
    hide Next;
    if transitions != [] {
      var n := |transitions| - 1;
      RunsKeepProper(rank, origin, history[..n + 1], transitions[..n]);
      StepKeepsProper(rank, history[n], transitions[n], history[n + 1]);
    }
  }
}
