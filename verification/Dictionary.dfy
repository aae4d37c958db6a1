/**
 Binary Patricia dictionaries over bit strings of one width
 (crates/protocol/onx-execution/src/dictionary.rs).  A node is proper for a width w when every
 path from it spells w bits; such a node stands for the finite map that Get computes.
 */
module Dictionaries {
  import opened Wrappers
  import opened Cells
  import opened Packing

  datatype Node =
    | Leaf(suffix: Bits, value: Cell<Hash>)
    | Branch(prefix: Bits, zero: Node, one: Node)

  predicate Proper(n: Node, w: nat) {
    match n
    case Leaf(suffix, _) => |suffix| == w
    case Branch(prefix, zero, one) =>
      |prefix| < w && Proper(zero, w - |prefix| - 1) && Proper(one, w - |prefix| - 1)
  }

  predicate ProperTree(t: Option<Node>, w: nat) {
    t.Some? ==> Proper(t.value, w)
  }

  /** The length of the longest common prefix. */
  function Common(a: Bits, b: Bits): (n: nat)
    ensures n <= |a| && n <= |b| && a[..n] == b[..n]
    ensures n < |a| && n < |b| ==> a[n] != b[n]
  {
    if a == [] || b == [] || a[0] != b[0] then 0 else 1 + Common(a[1..], b[1..])
  }

  function Get(n: Node, bits: Bits): Option<Cell<Hash>> {
    match n
    case Leaf(suffix, value) => if suffix == bits then Some(value) else None
    case Branch(prefix, zero, one) =>
      if prefix <= bits && |bits| > |prefix| then
        Get(if bits[|prefix|] then one else zero, bits[|prefix| + 1..])
      else None
  }

  function Lookup(t: Option<Node>, bits: Bits): Option<Cell<Hash>> {
    if t.None? then None else Get(t.value, bits)
  }

  function BranchOn(prefix: Bits, bit: bool, here: Node, there: Node): Node {
    if bit then Branch(prefix, there, here) else Branch(prefix, here, there)
  }

  /** The new node, and the value that was there before. */
  function InsertAt(node: Node, bits: Bits, value: Cell<Hash>): (Node, Option<Cell<Hash>>)
    requires Proper(node, |bits|)
  {
    match node
    case Leaf(suffix, prior) =>
      var n := Common(suffix, bits);
      if n == |suffix| && n == |bits| then (Leaf(suffix, value), Some(prior))
      else (BranchOn(suffix[..n], suffix[n], Leaf(suffix[n + 1..], prior), Leaf(bits[n + 1..], value)), None)
    case Branch(prefix, zero, one) =>
      var n := Common(prefix, bits);
      if n < |prefix| then
        (BranchOn(prefix[..n], prefix[n], Branch(prefix[n + 1..], zero, one), Leaf(bits[n + 1..], value)), None)
      else
        var rest := bits[|prefix| + 1..];
        if bits[|prefix|] then
          var (child, prior) := InsertAt(one, rest, value);
          (Branch(prefix, zero, child), prior)
        else
          var (child, prior) := InsertAt(zero, rest, value);
          (Branch(prefix, child, one), prior)
  }

  function Insert(t: Option<Node>, bits: Bits, value: Cell<Hash>): (Node, Option<Cell<Hash>>)
    requires ProperTree(t, |bits|)
  {
    if t.None? then (Leaf(bits, value), None) else InsertAt(t.value, bits, value)
  }

  /** Lengthens the label of a node that lost its sibling. */
  function Prepend(prefix: Bits, edge: bool, n: Node): Node {
    match n
    case Leaf(suffix, value) => Leaf(prefix + [edge] + suffix, value)
    case Branch(childPrefix, zero, one) => Branch(prefix + [edge] + childPrefix, zero, one)
  }

  /** What is left, and the value that was removed. */
  function RemoveAt(node: Node, bits: Bits): (Option<Node>, Option<Cell<Hash>>) {
    match node
    case Leaf(suffix, value) => if suffix == bits then (None, Some(value)) else (Some(node), None)
    case Branch(prefix, zero, one) =>
      if !(prefix <= bits) || |bits| <= |prefix| then (Some(node), None)
      else
        var i := |prefix|;
        if bits[i] then
          var (child, prior) := RemoveAt(one, bits[i + 1..]);
          (Some(if child.Some? then Branch(prefix, zero, child.value) else Prepend(prefix, false, zero)), prior)
        else
          var (child, prior) := RemoveAt(zero, bits[i + 1..]);
          (Some(if child.Some? then Branch(prefix, child.value, one) else Prepend(prefix, true, one)), prior)
  }

  function Remove(t: Option<Node>, bits: Bits): (Option<Node>, Option<Cell<Hash>>) {
    if t.None? then (None, None) else RemoveAt(t.value, bits)
  }

  // ---------- The map a dictionary stands for ----------

  /** bits goes on with edge after a. */
  predicate Continues(bits: Bits, a: Bits, edge: bool) {
    a <= bits && |bits| > |a| && bits[|a|] == edge
  }

  lemma SplitBits(bits: Bits, a: Bits, edge: bool)
    requires Continues(bits, a, edge)
    ensures bits == a + [edge] + bits[|a| + 1..]
  {
  }

  lemma LongLabel(bits: Bits, a: Bits, edge: bool, s: Bits)
    ensures a + [edge] + s <= bits <==> Continues(bits, a, edge) && s <= bits[|a| + 1..]
    ensures a + [edge] + s == bits <==> Continues(bits, a, edge) && s == bits[|a| + 1..]
    ensures a + [edge] + s <= bits ==> bits[|a + [edge] + s|..] == bits[|a| + 1..][|s|..]
  {
    var long := a + [edge] + s;
    if Continues(bits, a, edge) {
      SplitBits(bits, a, edge);
      var rest := bits[|a| + 1..];
      if s <= rest {
        assert rest == s + rest[|s|..];
        assert bits == long + rest[|s|..];
      }
      if long <= bits {
        assert forall i :: 0 <= i < |s| ==> s[i] == long[|a| + 1 + i] == bits[|a| + 1 + i] == rest[i];
      }
    }
  }

  /** A label can be split in front of any of its bits. */
  lemma GetSplitsLabel(n: Node, a: Bits, edge: bool, bits: Bits)
    ensures Get(Prepend(a, edge, n), bits) == if Continues(bits, a, edge) then Get(n, bits[|a| + 1..]) else None
  {
    match n
    case Leaf(suffix, _) => LongLabel(bits, a, edge, suffix);
    case Branch(prefix, zero, one) =>
      LongLabel(bits, a, edge, prefix);
      assert |a + [edge] + prefix| == |a| + 1 + |prefix|;
      if |bits| > |a| + 1 + |prefix| {
        BehindLabel(bits, |a| + 1, |prefix|);
      }
  }

  lemma BehindLabel(bits: Bits, i: nat, j: nat)
    requires i + j < |bits|
    ensures bits[i..][j] == bits[i + j] && bits[i..][j + 1..] == bits[i + j + 1..]
  {
  }

  lemma GetOnBranch(prefix: Bits, bit: bool, here: Node, there: Node, bits: Bits)
    ensures Get(BranchOn(prefix, bit, here, there), bits) ==
            if Continues(bits, prefix, bit) then Get(here, bits[|prefix| + 1..])
            else if Continues(bits, prefix, !bit) then Get(there, bits[|prefix| + 1..])
            else None
  {
  }

  lemma SameTail(a: Bits, edge: bool, x: Bits, y: Bits)
    requires Continues(x, a, edge) && Continues(y, a, edge)
    ensures x == y <==> x[|a| + 1..] == y[|a| + 1..]
  {
    SplitBits(x, a, edge);
    SplitBits(y, a, edge);
  }

  /** Forking a node above bit number at of its label adds one key. */
  lemma ForkAddsKey(short: Node, a: Bits, edge: bool, bits: Bits, value: Cell<Hash>, k: Bits)
    requires Continues(bits, a, !edge)
    ensures
      var fork := BranchOn(a, edge, short, Leaf(bits[|a| + 1..], value));
      && Get(fork, k) == if k == bits then Some(value) else Get(Prepend(a, edge, short), k)
    ensures Get(Prepend(a, edge, short), bits) == None
  {
    GetSplitsLabel(short, a, edge, bits);
    GetSplitsLabel(short, a, edge, k);
    GetOnBranch(a, edge, short, Leaf(bits[|a| + 1..], value), k);
    if Continues(k, a, !edge) {
      SameTail(a, !edge, k, bits);
    }
  }

  /** Changing the entry of one key on one side of a branch changes only that key of the branch. */
  lemma BranchFollowsSide(prefix: Bits, edge: bool, side: Node, other: Node, child: Node, bits: Bits,
    entry: Option<Cell<Hash>>, k: Bits)
    requires Continues(bits, prefix, edge)
    requires Continues(k, prefix, edge) ==>
               Get(child, k[|prefix| + 1..]) ==
               if k[|prefix| + 1..] == bits[|prefix| + 1..] then entry else Get(side, k[|prefix| + 1..])
    ensures Get(BranchOn(prefix, edge, child, other), k) ==
            if k == bits then entry else Get(BranchOn(prefix, edge, side, other), k)
  {
    GetOnBranch(prefix, edge, child, other, k);
    GetOnBranch(prefix, edge, side, other, k);
    if Continues(k, prefix, edge) {
      SameTail(prefix, edge, k, bits);
    }
  }

  lemma ForkRefines(node: Node, bits: Bits, value: Cell<Hash>, k: Bits, n: nat, short: Node)
    requires Proper(node, |bits|)
    requires var spelled := if node.Leaf? then node.suffix else node.prefix;
      && n < |spelled| && n < |bits| && spelled[..n] == bits[..n] && spelled[n] != bits[n]
      && short == if node.Leaf? then node.(suffix := spelled[n + 1..]) else node.(prefix := spelled[n + 1..])
    ensures
      var spelled := if node.Leaf? then node.suffix else node.prefix;
      var fork := BranchOn(spelled[..n], spelled[n], short, Leaf(bits[n + 1..], value));
      && Proper(fork, |bits|) && Get(node, bits) == None
      && Get(fork, k) == if k == bits then Some(value) else Get(node, k)
  {
    var spelled := if node.Leaf? then node.suffix else node.prefix;
    assert spelled == spelled[..n] + [spelled[n]] + spelled[n + 1..];
    assert Prepend(spelled[..n], spelled[n], short) == node;
    ForkAddsKey(short, spelled[..n], spelled[n], bits, value, k);
  }

  function Tail(k: Bits, n: nat): Bits {
    if |k| > n then k[n + 1..] else []
  }

  /** The fork of a label that differs from the key at bit number n. */
  lemma InsertForks(node: Node, bits: Bits, value: Cell<Hash>, k: Bits)
    requires Proper(node, |bits|)
    requires var spelled := if node.Leaf? then node.suffix else node.prefix; Common(spelled, bits) < |spelled|
    ensures
      var (n, prior) := InsertAt(node, bits, value);
      && Proper(n, |bits|) && prior == Get(node, bits)
      && Get(n, k) == if k == bits then Some(value) else Get(node, k)
  {
    var spelled := if node.Leaf? then node.suffix else node.prefix;
    var n := Common(spelled, bits);
    var short := if node.Leaf? then node.(suffix := spelled[n + 1..]) else node.(prefix := spelled[n + 1..]);
    ForkRefines(node, bits, value, k, n, short);
  }

  function Side(node: Node, bit: bool): Node
    requires node.Branch?
  {
    if bit then node.one else node.zero
  }

  /** A branch seen from the side on which the bits go on. */
  lemma SeenFromSide(node: Node, w: nat, bits: Bits)
    requires node.Branch? && Proper(node, w) && node.prefix <= bits && |bits| > |node.prefix|
    ensures
      var n := |node.prefix|;
      var side, other := Side(node, bits[n]), Side(node, !bits[n]);
      && Continues(bits, node.prefix, bits[n]) && Proper(side, w - n - 1) && Proper(other, w - n - 1)
      && node == BranchOn(node.prefix, bits[n], side, other) && Get(node, bits) == Get(side, bits[n + 1..])
  {
    GetOnBranch(node.prefix, bits[|node.prefix|], Side(node, bits[|node.prefix|]), Side(node, !bits[|node.prefix|]),
      bits);
  }

  lemma ProperBranch(prefix: Bits, edge: bool, side: Node, other: Node, w: nat)
    requires |prefix| < w && Proper(side, w - |prefix| - 1) && Proper(other, w - |prefix| - 1)
    ensures Proper(BranchOn(prefix, edge, side, other), w)
  {
  }

  lemma InsertGoesDown(node: Node, bits: Bits, value: Cell<Hash>)
    requires Proper(node, |bits|) && node.Branch? && Common(node.prefix, bits) == |node.prefix|
    ensures node.prefix <= bits && |bits| > |node.prefix|
    ensures
      var n := |node.prefix|;
      var (child, prior) := InsertAt(Side(node, bits[n]), bits[n + 1..], value);
      InsertAt(node, bits, value) == (BranchOn(node.prefix, bits[n], child, Side(node, !bits[n])), prior)
  {
  }

  lemma InsertOnLeaf(node: Node, bits: Bits, value: Cell<Hash>, k: Bits)
    requires Proper(node, |bits|) && node.Leaf? && Common(node.suffix, bits) == |node.suffix|
    ensures
      var (n, prior) := InsertAt(node, bits, value);
      && Proper(n, |bits|) && prior == Get(node, bits)
      && Get(n, k) == if k == bits then Some(value) else Get(node, k)
  {
  }

  /** InsertAt keeps nodes proper, sets one key, returns its former value and touches no other key. */
  lemma {:induction false} InsertAtRefines(node: Node, bits: Bits, value: Cell<Hash>, k: Bits)
    requires Proper(node, |bits|)
    ensures
      var (n, prior) := InsertAt(node, bits, value);
      && Proper(n, |bits|) && prior == Get(node, bits)
      && Get(n, k) == if k == bits then Some(value) else Get(node, k)
    decreases node
  {
    hide InsertAt, Get, Proper;
    var spelled := if node.Leaf? then node.suffix else node.prefix;
    if Common(spelled, bits) < |spelled| {
      InsertForks(node, bits, value, k);
    } else if node.Leaf? {
      InsertOnLeaf(node, bits, value, k);
    } else {
      InsertBelowRefines(node, bits, value, k);
    }
  }

  lemma {:induction false} InsertBelowRefines(node: Node, bits: Bits, value: Cell<Hash>, k: Bits)
    requires Proper(node, |bits|) && node.Branch? && Common(node.prefix, bits) == |node.prefix|
    ensures
      var (n, prior) := InsertAt(node, bits, value);
      && Proper(n, |bits|) && prior == Get(node, bits)
      && Get(n, k) == if k == bits then Some(value) else Get(node, k)
    decreases node, 0
  {
    hide InsertAt, Get, Proper, BranchOn, Continues, Common, Tail;
    var n := |node.prefix|;
    InsertGoesDown(node, bits, value);
    SeenFromSide(node, |bits|, bits);
    var edge := bits[n];
    var side, other := Side(node, edge), Side(node, !edge);
    InsertAtRefines(side, bits[n + 1..], value, Tail(k, n));
    var child := InsertAt(side, bits[n + 1..], value).0;
    ProperBranch(node.prefix, edge, child, other, |bits|);
    if Continues(k, node.prefix, edge) {
      TailAfter(k, node.prefix, edge);
    }
    BranchFollowsSide(node.prefix, edge, side, other, child, bits, Some(value), k);
  }

  lemma TailAfter(k: Bits, prefix: Bits, edge: bool)
    requires Continues(k, prefix, edge)
    ensures |k| > |prefix| && Tail(k, |prefix|) == k[|prefix| + 1..]
  {
  }

  /** Dropping one side of a branch. */
  lemma DroppedSide(prefix: Bits, edge: bool, side: Node, other: Node, bits: Bits, k: Bits)
    requires Continues(bits, prefix, edge)
    requires Continues(k, prefix, edge) ==>
               (if k[|prefix| + 1..] == bits[|prefix| + 1..] then None else Get(side, k[|prefix| + 1..])) == None
    ensures Get(Prepend(prefix, !edge, other), k) == if k == bits then None
      else Get(BranchOn(prefix, edge, side, other), k)
  {
    GetSplitsLabel(other, prefix, !edge, k);
    GetOnBranch(prefix, edge, side, other, k);
    if Continues(k, prefix, edge) {
      SameTail(prefix, edge, k, bits);
    }
  }

  lemma RemoveGoesDown(node: Node, bits: Bits)
    requires node.Branch? && node.prefix <= bits && |bits| > |node.prefix|
    ensures
      var n := |node.prefix|;
      var (child, prior) := RemoveAt(Side(node, bits[n]), bits[n + 1..]);
      var other := Side(node, !bits[n]);
      RemoveAt(node, bits) == (Some(if child.Some? then BranchOn(node.prefix, bits[n], child.value, other)
                                    else Prepend(node.prefix, !bits[n], other)), prior)
  {
  }

  lemma RemovePassesBy(node: Node, bits: Bits)
    requires node.Branch? && !(node.prefix <= bits && |bits| > |node.prefix|)
    ensures RemoveAt(node, bits) == (Some(node), None) && Get(node, bits) == None
  {
  }

  lemma ProperLonger(prefix: Bits, edge: bool, n: Node, w: nat)
    requires |prefix| < w && Proper(n, w - |prefix| - 1)
    ensures Proper(Prepend(prefix, edge, n), w)
  {
  }

  /** RemoveAt keeps nodes proper, clears one key, returns its former value and touches no other
      key; without such a key it changes nothing. */
  lemma {:induction false} RemoveAtRefines(node: Node, w: nat, bits: Bits, k: Bits)
    requires Proper(node, w)
    ensures
      var (t, prior) := RemoveAt(node, bits);
      && ProperTree(t, w) && prior == Get(node, bits)
      && (prior == None ==> t == Some(node))
      && Lookup(t, k) == if k == bits then None else Get(node, k)
    decreases node
  {
    if node.Branch? {
      if node.prefix <= bits && |bits| > |node.prefix| {
        RemoveBelowRefines(node, w, bits, k);
      } else {
        RemovePassesBy(node, bits);
      }
    }
  }

  ghost predicate RemovesKey(node: Node, w: nat, bits: Bits, k: Bits) {
    var (t, prior) := RemoveAt(node, bits);
    && ProperTree(t, w) && prior == Get(node, bits)
    && (prior == None ==> t == Some(node))
    && Lookup(t, k) == if k == bits then None else Get(node, k)
  }

  lemma RemovedFromSide(node: Node, w: nat, bits: Bits, k: Bits)
    requires Proper(node, w) && node.Branch? && node.prefix <= bits && |bits| > |node.prefix|
    requires
      var n := |node.prefix|;
      && RemovesKey(Side(node, bits[n]), w - n - 1, bits[n + 1..], Tail(k, n))
      && RemoveAt(Side(node, bits[n]), bits[n + 1..]).0.Some?
    ensures RemovesKey(node, w, bits, k)
  {
    var n := |node.prefix|;
    assert n < w;
    hide RemoveAt, Get, Proper, BranchOn, Continues, Prepend, Tail, Lookup;
    RemoveGoesDown(node, bits);
    SeenFromSide(node, w, bits);
    var edge := bits[n];
    var side, other := Side(node, edge), Side(node, !edge);
    var child := RemoveAt(side, bits[n + 1..]).0;
    KeptSide(node.prefix, edge, side, other, child.value, bits, k);
    ProperBranch(node.prefix, edge, child.value, other, w);
  }

  lemma RemovedWithSide(node: Node, w: nat, bits: Bits, k: Bits)
    requires Proper(node, w) && node.Branch? && node.prefix <= bits && |bits| > |node.prefix|
    requires
      var n := |node.prefix|;
      && RemovesKey(Side(node, bits[n]), w - n - 1, bits[n + 1..], Tail(k, n))
      && RemoveAt(Side(node, bits[n]), bits[n + 1..]).0.None?
    ensures RemovesKey(node, w, bits, k)
  {
    var n := |node.prefix|;
    assert n < w;
    hide RemoveAt, Get, Proper, BranchOn, Continues, Prepend, Tail, Lookup;
    RemoveGoesDown(node, bits);
    SeenFromSide(node, w, bits);
    var edge := bits[n];
    var side, other := Side(node, edge), Side(node, !edge);
    EmptySide(node.prefix, edge, side, other, bits, k);
    ProperLonger(node.prefix, !edge, other, w);
  }

  lemma {:induction false} RemoveBelowRefines(node: Node, w: nat, bits: Bits, k: Bits)
    requires Proper(node, w) && node.Branch? && node.prefix <= bits && |bits| > |node.prefix|
    ensures RemovesKey(node, w, bits, k)
    decreases node, 0
  {
    var n := |node.prefix|;
    assert n < w;
    var side := Side(node, bits[n]);
    RemoveAtRefines(side, w - n - 1, bits[n + 1..], Tail(k, n));
    hide RemoveAt, Proper, Get, Tail;
    assert RemovesKey(side, w - n - 1, bits[n + 1..], Tail(k, n));
    if RemoveAt(side, bits[n + 1..]).0.Some? {
      RemovedFromSide(node, w, bits, k);
    } else {
      RemovedWithSide(node, w, bits, k);
    }
  }

  lemma KeptSide(prefix: Bits, edge: bool, side: Node, other: Node, child: Node, bits: Bits, k: Bits)
    requires Continues(bits, prefix, edge)
    requires Lookup(Some(child), Tail(k, |prefix|))
          == if Tail(k, |prefix|) == bits[|prefix| + 1..] then None else Get(side, Tail(k, |prefix|))
    ensures Lookup(Some(BranchOn(prefix, edge, child, other)), k)
         == if k == bits then None else Get(BranchOn(prefix, edge, side, other), k)
  {
    hide Get, BranchOn, Continues, Tail;
    if Continues(k, prefix, edge) {
      TailAfter(k, prefix, edge);
    }
    BranchFollowsSide(prefix, edge, side, other, child, bits, None, k);
  }

  lemma EmptySide(prefix: Bits, edge: bool, side: Node, other: Node, bits: Bits, k: Bits)
    requires Continues(bits, prefix, edge)
    requires Lookup(None, Tail(k, |prefix|))
          == if Tail(k, |prefix|) == bits[|prefix| + 1..] then None else Get(side, Tail(k, |prefix|))
    ensures Lookup(Some(Prepend(prefix, !edge, other)), k)
         == if k == bits then None else Get(BranchOn(prefix, edge, side, other), k)
  {
    hide Get, BranchOn, Continues, Tail, Prepend;
    if Continues(k, prefix, edge) {
      TailAfter(k, prefix, edge);
    }
    DroppedSide(prefix, edge, side, other, bits, k);
  }

  /** Set and delete on a whole dictionary refine update and removal on a finite map. */
  lemma InsertRefines(t: Option<Node>, bits: Bits, value: Cell<Hash>)
    requires ProperTree(t, |bits|)
    ensures
      var (n, prior) := Insert(t, bits, value);
      && Proper(n, |bits|) && prior == Lookup(t, bits)
      && forall k :: Get(n, k) == if k == bits then Some(value) else Lookup(t, k)
  {
    if t.Some? {
      InsertAtRefines(t.value, bits, value, bits);
      forall k
        ensures Get(Insert(t, bits, value).0, k) == if k == bits then Some(value) else Lookup(t, k)
      {
        InsertAtRefines(t.value, bits, value, k);
      }
    }
  }

  lemma RemoveRefines(t: Option<Node>, w: nat, bits: Bits)
    requires ProperTree(t, w)
    ensures
      var (u, prior) := Remove(t, bits);
      && ProperTree(u, w) && prior == Lookup(t, bits) && (prior == None ==> u == t)
      && forall k :: Lookup(u, k) == if k == bits then None else Lookup(t, k)
  {
    if t.Some? {
      RemoveAtRefines(t.value, w, bits, bits);
      forall k
        ensures Lookup(Remove(t, bits).0, k) == if k == bits then None else Lookup(t, k)
      {
        RemoveAtRefines(t.value, w, bits, k);
      }
    }
  }

  // ---------- Canonicity ----------

  /** Some key of a proper node. */
  function AnyKeyOf(n: Node): Bits {
    match n
    case Leaf(suffix, _) => suffix
    case Branch(prefix, zero, _) => prefix + [false] + AnyKeyOf(zero)
  }

  lemma {:induction false} AnyKeyIsThere(n: Node)
    ensures Get(n, AnyKeyOf(n)).Some?
  {
    match n
    case Leaf(_, _) =>
    case Branch(prefix, zero, one) =>
      AnyKeyIsThere(zero);
      var k := AnyKeyOf(n);
      assert k[|prefix| + 1..] == AnyKeyOf(zero);
  }

  /** A branch has a key on either side of its prefix. */
  lemma BranchHasKeys(n: Node, edge: bool) returns (k: Bits)
    requires n.Branch?
    ensures Continues(k, n.prefix, edge) && Get(n, k).Some?
  {
    var side := if edge then n.one else n.zero;
    AnyKeyIsThere(side);
    k := n.prefix + [edge] + AnyKeyOf(side);
    assert k[|n.prefix| + 1..] == AnyKeyOf(side);
  }

  ghost predicate SameMap(m: Node, n: Node) {
    forall k :: Get(m, k) == Get(n, k)
  }

  /** A branch and a leaf differ: the branch has two keys. */
  lemma BranchIsNoLeaf(m: Node, n: Node)
    requires SameMap(m, n) && m.Branch?
    ensures n.Branch?
  {
    var k := BranchHasKeys(m, false);
    var l := BranchHasKeys(m, true);
    assert Get(n, k).Some? && Get(n, l).Some?;
  }

  /** The prefix of a branch is no longer than that of another branch with the same keys. */
  lemma PrefixNoLonger(m: Node, n: Node)
    requires SameMap(m, n) && m.Branch? && n.Branch?
    ensures |n.prefix| <= |m.prefix| && n.prefix <= m.prefix
  {
    var k := BranchHasKeys(m, false);
    var l := BranchHasKeys(m, true);
    assert Get(n, k).Some? && Get(n, l).Some?;
    assert n.prefix <= k && n.prefix <= l;
    assert k[|m.prefix|] != l[|m.prefix|];
    assert forall i :: 0 <= i < |n.prefix| ==> n.prefix[i] == k[i] == l[i];
    assert k[..|m.prefix|] == m.prefix;
    assert n.prefix == k[..|n.prefix|] == m.prefix[..|n.prefix|];
  }

  lemma SidesHaveSameMap(m: Node, n: Node, edge: bool)
    requires SameMap(m, n) && m.Branch? && n.Branch? && m.prefix == n.prefix
    ensures SameMap(if edge then m.one else m.zero, if edge then n.one else n.zero)
  {
    var a, b := if edge then m.one else m.zero, if edge then n.one else n.zero;
    forall k
      ensures Get(a, k) == Get(b, k)
    {
      var long := m.prefix + [edge] + k;
      assert long[|m.prefix| + 1..] == k;
      assert Get(m, long) == Get(a, k) && Get(n, long) == Get(b, k);
    }
  }

  /** Nodes that stand for the same map are the same node: the shape of a dictionary does not
      depend on how it came about. */
  lemma {:induction false} ShapeIsCanonical(m: Node, n: Node)
    requires SameMap(m, n)
    ensures m == n
    decreases m
  {
    if m.Branch? {
      BranchIsNoLeaf(m, n);
      PrefixNoLonger(m, n);
      PrefixNoLonger(n, m);
      SidesHaveSameMap(m, n, false);
      SidesHaveSameMap(m, n, true);
      ShapeIsCanonical(m.zero, n.zero);
      ShapeIsCanonical(m.one, n.one);
    } else {
      AnyKeyIsThere(m);
      if n.Branch? {
        BranchIsNoLeaf(n, m);
      }
      assert Get(n, m.suffix).Some?;
    }
  }

  // ---------- Histories ----------

  datatype Change = Set(key: Bits, value: Cell<Hash>) | Delete(key: Bits)

  /** The tree after a sequence of changes, oldest first. */
  function TreeAfter(changes: seq<Change>, w: nat): (t: Option<Node>)
    requires forall c :: c in changes ==> |c.key| == w
    ensures ProperTree(t, w)
  {
    if changes == [] then None
    else
      var before := TreeAfter(changes[..|changes| - 1], w);
      match changes[|changes| - 1]
      case Set(key, value) => InsertRefines(before, key, value); Some(Insert(before, key, value).0)
      case Delete(key) => RemoveRefines(before, w, key); Remove(before, key).0
  }

  /** The finite map after the same changes. */
  function MapAfter(changes: seq<Change>): map<Bits, Cell<Hash>> {
    if changes == [] then map[]
    else
      var before := MapAfter(changes[..|changes| - 1]);
      match changes[|changes| - 1]
      case Set(key, value) => before[key := value]
      case Delete(key) => before - {key}
  }

  function Entry(m: map<Bits, Cell<Hash>>, k: Bits): Option<Cell<Hash>> {
    if k in m then Some(m[k]) else None
  }

  /** After any history a dictionary looks up what the finite map holds. */
  lemma {:induction false} HistoryRefinesMap(changes: seq<Change>, w: nat, k: Bits)
    requires forall c :: c in changes ==> |c.key| == w
    ensures Lookup(TreeAfter(changes, w), k) == Entry(MapAfter(changes), k)
  {
    if changes != [] {
      var earlier := changes[..|changes| - 1];
      HistoryRefinesMap(earlier, w, k);
      var before := TreeAfter(earlier, w);
      match changes[|changes| - 1]
      case Set(key, value) => InsertRefines(before, key, value);
      case Delete(key) => RemoveRefines(before, w, key);
    }
  }

  /** Two histories lead to the same tree exactly when they lead to the same map. */
  lemma HistoryDoesNotMatter(a: seq<Change>, b: seq<Change>, w: nat)
    requires forall c :: c in a || c in b ==> |c.key| == w
    ensures TreeAfter(a, w) == TreeAfter(b, w) <==> MapAfter(a) == MapAfter(b)
  {
    var s, t, m, n := TreeAfter(a, w), TreeAfter(b, w), MapAfter(a), MapAfter(b);
    forall k
      ensures Lookup(s, k) == Entry(m, k) && Lookup(t, k) == Entry(n, k)
    {
      HistoryRefinesMap(a, w, k);
      HistoryRefinesMap(b, w, k);
    }
    if s == t {
      forall k
        ensures Entry(m, k) == Entry(n, k)
      {
        assert Lookup(s, k) == Lookup(t, k);
      }
      assert forall k :: k in m <==> Entry(m, k).Some?;
      assert forall k :: k in n <==> Entry(n, k).Some?;
      assert m == n;
    }
    if m == n {
      SameLookupsSameTree(s, t);
    }
  }

  lemma BothThere(s: Option<Node>, t: Option<Node>)
    requires s.Some? && forall k :: Lookup(s, k) == Lookup(t, k)
    ensures t.Some?
  {
    AnyKeyIsThere(s.value);
    assert Lookup(s, AnyKeyOf(s.value)) == Lookup(t, AnyKeyOf(s.value));
  }

  lemma SameLookupsSameTree(s: Option<Node>, t: Option<Node>)
    requires forall k :: Lookup(s, k) == Lookup(t, k)
    ensures s == t
  {
    if s.Some? {
      BothThere(s, t);
      assert forall k :: Get(s.value, k) == Lookup(s, k) == Lookup(t, k) == Get(t.value, k);
      ShapeIsCanonical(s.value, t.value);
    } else if t.Some? {
      BothThere(t, s);
    }
  }
}
