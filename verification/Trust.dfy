/** Observed trust: a running average of the values a neighbour sends. */
module Trust {
  /** The average after one more received value. */
  function Average(x: nat, r: nat): nat {
    (x * 9 + r) / 10
  }

  lemma AverageBetween(x: nat, r: nat, lo: nat, hi: nat)
    requires lo <= x <= hi && lo <= r <= hi
    ensures lo <= Average(x, r) <= hi
  {
  }

  /** The average after a stream of received values. */
  function Averages(x: nat, rs: seq<nat>): nat
    decreases |rs|
  {
    if rs == [] then x else Averages(Average(x, rs[0]), rs[1..])
  }

  /** An average never leaves a range holding its start and everything received. */
  lemma {:induction false} StaysInRange(x: nat, rs: seq<nat>, lo: nat, hi: nat)
    requires lo <= x <= hi && forall r :: r in rs ==> lo <= r <= hi
    ensures lo <= Averages(x, rs) <= hi
    decreases |rs|
  {
    if rs != [] {
      assert rs[0] in rs && forall r :: r in rs[1..] ==> r in rs;
      AverageBetween(x, rs[0], lo, hi);
      StaysInRange(Average(x, rs[0]), rs[1..], lo, hi);
    }
  }

  /** The average after the same value has come n times. */
  function Repeated(x: nat, r: nat, n: nat): nat
    decreases n
  {
    if n == 0 then x else Repeated(Average(x, r), r, n - 1)
  }

  /** Where an average under a constant value ends up: at the value from above, nine short of it from below. */
  function Limit(x: nat, r: nat): nat {
    if x > r then r else if x + 9 < r then r - 9 else x
  }

  lemma FixedPoints(x: nat, r: nat)
    ensures Average(x, r) == x <==> x <= r <= x + 9
  {
  }

  lemma Approach(x: nat, r: nat)
    ensures Limit(Average(x, r), r) == Limit(x, r)
    ensures x > r ==> r <= Average(x, r) < x
    ensures x + 9 < r ==> x < Average(x, r) <= r - 9
  {
  }

  function Distance(x: nat, r: nat): nat {
    if x > r then x - r else r - x
  }

  /** Under a constant value the average reaches its limit in at most as many steps as it started away, and stays. */
  lemma {:induction false} Settles(x: nat, r: nat, n: nat)
    requires n >= Distance(x, r)
    ensures Repeated(x, r, n) == Limit(x, r)
    decreases n
  {
    FixedPoints(x, r);
    Approach(x, r);
    if n > 0 {
      if Average(x, r) == x {
        Stuck(x, r, n);
      } else {
        Settles(Average(x, r), r, n - 1);
      }
    }
  }

  lemma {:induction false} Stuck(x: nat, r: nat, n: nat)
    requires Average(x, r) == x
    ensures Repeated(x, r, n) == x
  {
    if n > 0 {
      Stuck(x, r, n - 1);
    }
  }
}
