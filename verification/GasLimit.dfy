/** The block gas limit rule and what iterating it does. */
module GasLimit {
  import opened Common

  const GAS_LIMIT_BOUND_DIVISOR: nat := 1024
  const MIN_GAS_LIMIT: nat := 5000
  const MAX_GAS_LIMIT: nat := 0x7fff_ffff_ffff_ffff

  function Target(desired: U64): U64 {
    if desired < MIN_GAS_LIMIT then MIN_GAS_LIMIT else desired
  }

  /** `CalcGasLimit`, in 64-bit arithmetic. */
  function CalcGasLimit(parent: U64, desired: U64): U64 {
    var delta: U64 := (parent / GAS_LIMIT_BOUND_DIVISOR - 1) % TWO_64;
    var target := Target(desired);
    if parent < target then
      var limit := (parent + delta) % TWO_64;
      if limit > target then target else limit
    else if parent > target then
      var limit := (parent - delta) % TWO_64;
      if limit < target then target else limit
    else parent
  }

  /** The next limit lies between the parent and the target, and less than a 1024th away; it stops
      short of the target only by taking the largest such step. */
  predicate Approaches(parent: nat, next: nat, target: nat) {
    && (parent <= next <= target || target <= next <= parent)
    && Distance(parent, next) < parent / 1024
    && (next == target || Distance(parent, next) == parent / 1024 - 1)
    && (next == parent ==> parent == target)
  }

  /** From 2048 on, one step approaches the target if and only if adding the step does not overflow
      64 bits on the way up. */
  lemma StepApproaches(parent: U64, desired: U64)
    requires parent >= 2048
    ensures Approaches(parent, CalcGasLimit(parent, desired), Target(desired)) <==>
            !(parent < Target(desired) && parent + parent / GAS_LIMIT_BOUND_DIVISOR - 1 >= TWO_64)
  {
    var delta := parent / GAS_LIMIT_BOUND_DIVISOR - 1;
    assert 1 <= delta < parent;
    Wraps(delta);
    Wraps(parent + delta);
    Wraps(parent - delta);
  }

  lemma Wraps(x: nat)
    requires x < 2 * TWO_64
    ensures x % TWO_64 == if x < TWO_64 then x else x - TWO_64
  {
  }

  function Iterate(limit: U64, desired: U64, k: nat): U64
    decreases k
  {
    if k == 0 then limit else Iterate(CalcGasLimit(limit, desired), desired, k - 1)
  }

  lemma {:induction false} StaysAtTarget(desired: U64, k: nat)
    ensures Iterate(Target(desired), desired, k) == Target(desired)
  {
    if k > 0 {
      StaysAtTarget(desired, k - 1);
    }
  }

  /** Targets for which no step on the way up overflows; every legal gas limit is one. */
  predicate Reachable(target: nat) {
    target > 0 && target - 1 + (target - 1) / GAS_LIMIT_BOUND_DIVISOR - 1 < TWO_64
  }

  /** From every limit of at least 2048 each step approaches the target, exactly for these targets. */
  lemma EveryStepApproachesIffReachable(desired: U64)
    ensures (forall limit: U64 :: limit >= 2048 ==> Approaches(limit, CalcGasLimit(limit, desired), Target(desired)))
            <==> Reachable(Target(desired))
  {
    var target := Target(desired);
    if Reachable(target) {
      forall limit: U64 | limit >= 2048
        ensures Approaches(limit, CalcGasLimit(limit, desired), target)
      {
        StepApproaches(limit, desired);
        if limit < target {
          SumsAscend(limit, target - 1);
        }
      }
    } else {
      StepApproaches(target - 1, desired);
      assert !Approaches(target - 1, CalcGasLimit(target - 1, desired), target);
    }
  }

  lemma SumsAscend(a: nat, b: nat)
    requires a <= b
    ensures a + a / GAS_LIMIT_BOUND_DIVISOR <= b + b / GAS_LIMIT_BOUND_DIVISOR
  {
  }

  lemma LegalTargetsReachable(desired: U64)
    requires desired <= MAX_GAS_LIMIT
    ensures Reachable(Target(desired))
  {
  }

  /** Distance to the target; it shrinks with every step. */
  function Distance(limit: nat, target: nat): nat {
    if limit <= target then target - limit else limit - target
  }

  /** From every parent limit of at least 2048, iterating the rule reaches the target after finitely
      many steps and stays there; only on the way up must the target keep clear of overflow. */
  lemma {:induction false} ReachesTarget(limit: U64, desired: U64) returns (k: nat)
    requires limit >= 2048 && (limit >= Target(desired) || Reachable(Target(desired)))
    ensures forall j: nat :: j >= k ==> Iterate(limit, desired, j) == Target(desired)
    ensures Target(desired) == if desired < 5000 then 5000 else desired
    decreases Distance(limit, Target(desired))
  {
    if limit == Target(desired) {
      k := 0;
      forall j: nat
        ensures Iterate(limit, desired, j) == Target(desired)
      {
        StaysAtTarget(desired, j);
      }
    } else {
      var next := CalcGasLimit(limit, desired);
      StepApproaches(limit, desired);
      if limit < Target(desired) {
        SumsAscend(limit, Target(desired) - 1);
      }
      var rest := ReachesTarget(next, desired);
      k := rest + 1;
      forall j: nat | j >= k
        ensures Iterate(limit, desired, j) == Target(desired)
      {
        assert Iterate(limit, desired, j) == Iterate(next, desired, j - 1);
      }
    }
  }

  /** Near the top of the word the upward step wraps to a small limit. */
  lemma OverflowDropsLimit()
    ensures var parent: U64, desired: U64 := TWO_64 - 2, TWO_64 - 1;
            CalcGasLimit(parent, desired) < parent / GAS_LIMIT_BOUND_DIVISOR
  {
  }
}
