/** Remainders of sums. */
module Modular {
  lemma MultipleOfN(n: nat, d: int)
    requires n > 0
    ensures d >= 1 ==> n * d >= n
    ensures d <= -1 ==> n * d + n <= 0
  {
  }

  /** The remainder is what is left of any multiple. */
  lemma RemainderIs(a: nat, q: int, n: nat, r: nat)
    requires n > 0 && a == n * q + r && r < n
    ensures a % n == r
  {
    var d: int := a / n - q;
    assert n * d == r - a % n;
    MultipleOfN(n, d);
  }

  /** Counting up on a circle of n places. */
  lemma NextOnCircle(c: nat, n: nat)
    requires c < n
    ensures (c + 1) % n == if c + 1 == n then 0 else c + 1
  {
    if c + 1 == n {
      RemainderIs(c + 1, 1, n, 0);
    } else {
      RemainderIs(c + 1, 0, n, c + 1);
    }
  }
}
