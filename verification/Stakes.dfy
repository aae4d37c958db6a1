/** Sums of stake over sets of validators. */
module Stakes {
  ghost function StakeOf(stakes: map<nat, nat>, ids: set<nat>): nat {
    if ids == {} then 0
    else
      var x :| x in ids;
      One(stakes, x) + StakeOf(stakes, ids - {x})
  }

  /** The stake of one validator; strangers have none. */
  function One(stakes: map<nat, nat>, x: nat): nat {
    if x in stakes then stakes[x] else 0
  }

  /** Any member can be taken out first. */
  lemma {:induction false} StakeWithout(stakes: map<nat, nat>, ids: set<nat>, y: nat)
    requires y in ids
    ensures StakeOf(stakes, ids) == One(stakes, y) + StakeOf(stakes, ids - {y})
    decreases ids
  {
    var x :| x in ids && StakeOf(stakes, ids) == One(stakes, x) + StakeOf(stakes, ids - {x});
    if x != y {
      StakeWithout(stakes, ids - {x}, y);
      StakeWithout(stakes, ids - {y}, x);
      assert ids - {x} - {y} == ids - {y} - {x};
    }
  }

  lemma StakeWith(stakes: map<nat, nat>, ids: set<nat>, y: nat)
    requires y !in ids
    ensures StakeOf(stakes, ids + {y}) == One(stakes, y) + StakeOf(stakes, ids)
  {
    StakeWithout(stakes, ids + {y}, y);
    assert ids + {y} - {y} == ids;
  }

  /** Inclusion and exclusion. */
  lemma {:induction false} StakeOfUnion(stakes: map<nat, nat>, a: set<nat>, b: set<nat>)
    ensures StakeOf(stakes, a + b) + StakeOf(stakes, a * b) == StakeOf(stakes, a) + StakeOf(stakes, b)
    decreases b
  {
    if b == {} {
      assert a + b == a && a * b == {};
    } else {
      var y :| y in b;
      StakeOfUnion(stakes, a, b - {y});
      StakeWithout(stakes, b, y);
      if y in a {
        assert a + b == a + (b - {y});
        assert a * b == a * (b - {y}) + {y};
        StakeWith(stakes, a * (b - {y}), y);
      } else {
        assert a + b == a + (b - {y}) + {y};
        assert a * b == a * (b - {y});
        StakeWith(stakes, a + (b - {y}), y);
      }
    }
  }

  lemma StakeIsMonotone(stakes: map<nat, nat>, a: set<nat>, b: set<nat>)
    requires a <= b
    ensures StakeOf(stakes, a) <= StakeOf(stakes, b)
  {
    StakeOfUnion(stakes, a, b - a);
    assert a + (b - a) == b && a * (b - a) == {};
  }

  /** Sets of two thirds of the stake each overlap in at least one third. */
  lemma QuorumsOverlap(stakes: map<nat, nat>, a: set<nat>, b: set<nat>)
    requires a <= stakes.Keys && b <= stakes.Keys
    requires 3 * StakeOf(stakes, a) >= 2 * StakeOf(stakes, stakes.Keys)
    requires 3 * StakeOf(stakes, b) >= 2 * StakeOf(stakes, stakes.Keys)
    ensures 3 * StakeOf(stakes, a * b) >= StakeOf(stakes, stakes.Keys)
  {
    StakeOfUnion(stakes, a, b);
    StakeIsMonotone(stakes, a + b, stakes.Keys);
  }

  lemma {:induction false} SameStakes(s: map<nat, nat>, t: map<nat, nat>, ids: set<nat>)
    requires forall x :: x in ids ==> One(s, x) == One(t, x)
    ensures StakeOf(s, ids) == StakeOf(t, ids)
    decreases ids
  {
    if ids != {} {
      var x :| x in ids;
      StakeWithout(s, ids, x);
      StakeWithout(t, ids, x);
      SameStakes(s, t, ids - {x});
    }
  }
}
