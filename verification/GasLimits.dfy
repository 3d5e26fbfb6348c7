/** The rule by which a miner picks the gas limit of the next block. */
module GasLimits {
  const WORD: nat := 0x1_0000_0000_0000_0000
  const BOUND_DIVISOR: nat := 1024
  const MIN_GAS_LIMIT: nat := 5000

  type Uint64 = x: int | 0 <= x < WORD

  function Wrap(x: int): (r: Uint64) {
    x % WORD
  }

  function CalcGasLimit(parentLimit: Uint64, parentUsed: Uint64, gasFloor: Uint64, gasCeil: Uint64): (r: Uint64) {
    var contrib := Wrap(parentUsed + parentUsed / 2) / BOUND_DIVISOR;
    var decay := Wrap(parentLimit / BOUND_DIVISOR - 1);
    var raw := Wrap(Wrap(parentLimit - decay) + contrib);
    var limit := if raw < MIN_GAS_LIMIT then MIN_GAS_LIMIT else raw;
    if limit < gasFloor then
      var up := Wrap(parentLimit + decay);
      if up > gasFloor then gasFloor else up
    else if limit > gasCeil then
      var down := Wrap(parentLimit - decay);
      if down < gasCeil then gasCeil else down
    else limit
  }

  function Distance(a: int, b: int): (d: nat) {
    if a <= b then b - a else a - b
  }

  /** None of the sums leaves the 64 bits: the contribution of the usage, the step up, and the two together. */
  predicate NoOverflow(parent: Uint64, used: Uint64) {
    && BOUND_DIVISOR <= parent
    && used + used / 2 < WORD
    && parent + (parent / BOUND_DIVISOR - 1) < WORD
    && parent - (parent / BOUND_DIVISOR - 1) + (used + used / 2) / BOUND_DIVISOR < WORD
  }

  /** What does not overflow at two limits does not overflow between them. */
  lemma NoOverflowBetween(a: Uint64, r: Uint64, b: Uint64, used: Uint64)
    requires NoOverflow(a, used) && NoOverflow(b, used) && a <= r <= b
    ensures NoOverflow(r, used)
  {
    DivStep(a, r);
    DivStep(r, b);
  }

  lemma DivStep(a: nat, b: nat)
    requires a <= b
    ensures a / BOUND_DIVISOR <= b / BOUND_DIVISOR && b / BOUND_DIVISOR - a / BOUND_DIVISOR <= b - a
  {
  }

  /** A lower usage does not overflow either. */
  lemma NoOverflowBelow(parent: Uint64, used: Uint64, most: Uint64)
    requires NoOverflow(parent, most) && used <= most
    ensures NoOverflow(parent, used)
  {
    DivMonotone(used, most);
  }

  /** The rule without wrap-around. */
  lemma Unwrapped(parent: Uint64, used: Uint64, gasFloor: Uint64, gasCeil: Uint64)
    requires NoOverflow(parent, used)
    ensures var contrib, decay := (used + used / 2) / BOUND_DIVISOR, parent / BOUND_DIVISOR - 1;
      var limit := if parent - decay + contrib < MIN_GAS_LIMIT then MIN_GAS_LIMIT else parent - decay + contrib;
      CalcGasLimit(parent, used, gasFloor, gasCeil) ==
        if limit < gasFloor then (if parent + decay > gasFloor then gasFloor else parent + decay)
        else if limit > gasCeil then (if parent - decay < gasCeil then gasCeil else parent - decay)
        else limit
  {
    var contrib, decay := (used + used / 2) / BOUND_DIVISOR, parent / BOUND_DIVISOR - 1;
    assert Wrap(used + used / 2) == used + used / 2;
    assert Wrap(decay) == decay;
    assert Wrap(parent - decay) == parent - decay;
    assert Wrap(parent - decay + contrib) == parent - decay + contrib;
    assert Wrap(parent + decay) == parent + decay;
  }

  /**
   With floor and ceiling both at a target: the target is a fixed point, and any other
   limit moves strictly toward it without crossing it, whatever the usage.
   */
  lemma TowardTarget(parent: Uint64, used: Uint64, target: Uint64)
    requires 2 * BOUND_DIVISOR <= parent && NoOverflow(parent, used) && MIN_GAS_LIMIT <= target
    ensures var r := CalcGasLimit(parent, used, target, target);
      && (parent == target ==> r == target)
      && (parent < target ==> parent < r <= target)
      && (parent > target ==> target <= r < parent)
  {
    Unwrapped(parent, used, target, target);
  }

  /** The limits of successive blocks with the given usages. */
  ghost function Limits(parent: Uint64, used: seq<Uint64>, target: Uint64): Uint64
    decreases |used|
  {
    if used == [] then parent
    else Limits(CalcGasLimit(parent, used[0], target, target), used[1..], target)
  }

  /** Whatever the usages, the limit reaches the target within as many blocks as it is away, and stays. */
  lemma {:induction false} Converges(parent: Uint64, used: seq<Uint64>, target: Uint64)
    requires 2 * BOUND_DIVISOR <= parent && MIN_GAS_LIMIT <= target
    requires forall i :: 0 <= i < |used| ==> NoOverflow(parent, used[i]) && NoOverflow(target, used[i])
    requires Distance(parent, target) <= |used|
    ensures Limits(parent, used, target) == target
    decreases |used|
  {
    if used != [] {
      TowardTarget(parent, used[0], target);
      var next := CalcGasLimit(parent, used[0], target, target);
      forall i | 0 <= i < |used[1..]| ensures NoOverflow(next, used[1..][i]) && NoOverflow(target, used[1..][i]) {
        assert used[1..][i] == used[i + 1];
        if parent <= target {
          NoOverflowBetween(parent, next, target, used[i + 1]);
        } else {
          NoOverflowBetween(target, next, parent, used[i + 1]);
        }
      }
      Converges(next, used[1..], target);
    }
  }

  /** Checkable on the parent alone: a full block does not push the limit a whole 1/1024 up. */
  predicate FullBlockFits(parent: Uint64) {
    (parent + parent / 2) / BOUND_DIVISOR < 2 * (parent / BOUND_DIVISOR) - 1
  }

  /** The protocol's bound on one step: strictly less than parent / 1024 either way. */
  ghost predicate StepInBound(parent: Uint64, used: Uint64, gasFloor: Uint64, gasCeil: Uint64) {
    Distance(CalcGasLimit(parent, used, gasFloor, gasCeil), parent) < parent / BOUND_DIVISOR
  }

  lemma DivMonotone(a: nat, b: nat)
    requires a <= b
    ensures (a + a / 2) / BOUND_DIVISOR <= (b + b / 2) / BOUND_DIVISOR
  {
  }

  lemma StepWithin(parent: Uint64, used: Uint64, gasFloor: Uint64, gasCeil: Uint64)
    requires MIN_GAS_LIMIT <= parent && NoOverflow(parent, parent) && used <= parent && FullBlockFits(parent)
    ensures StepInBound(parent, used, gasFloor, gasCeil)
  {
    NoOverflowBelow(parent, used, parent);
    Unwrapped(parent, used, gasFloor, gasCeil);
    DivMonotone(used, parent);
    var q, contrib := parent / BOUND_DIVISOR, (used + used / 2) / BOUND_DIVISOR;
    WithinBy(parent, q, contrib, gasFloor, gasCeil, CalcGasLimit(parent, used, gasFloor, gasCeil));
  }

  lemma WithinBy(parent: int, q: int, contrib: int, gasFloor: int, gasCeil: int, r: int)
    requires MIN_GAS_LIMIT <= parent && 1 <= q && 0 <= contrib < 2 * q - 1
    requires var limit := if parent - (q - 1) + contrib < MIN_GAS_LIMIT then MIN_GAS_LIMIT else parent - (q - 1) + contrib;
      r == if limit < gasFloor then (if parent + (q - 1) > gasFloor then gasFloor else parent + (q - 1))
           else if limit > gasCeil then (if parent - (q - 1) < gasCeil then gasCeil else parent - (q - 1))
           else limit
    ensures Distance(r, parent) < q
  {
  }

  /** A full block that does not fit takes the limit out of the bound. */
  lemma StepBeyond(parent: Uint64, most: Uint64)
    requires MIN_GAS_LIMIT <= parent && NoOverflow(parent, parent) && !FullBlockFits(parent) && most == WORD - 1
    ensures !StepInBound(parent, parent, 0, most)
  {
    Unwrapped(parent, parent, 0, most);
    var q, contrib := parent / BOUND_DIVISOR, (parent + parent / 2) / BOUND_DIVISOR;
    assert contrib >= 2 * q - 1 && parent - (q - 1) + contrib >= parent + q;
  }

  /** Every step from a parent is within the bound, for all usages, floors and ceilings, iff a full block fits. */
  lemma StepBoundExact(parent: Uint64)
    requires MIN_GAS_LIMIT <= parent && NoOverflow(parent, parent)
    ensures FullBlockFits(parent) <==>
      forall used: Uint64, gasFloor: Uint64, gasCeil: Uint64 :: used <= parent ==> StepInBound(parent, used, gasFloor, gasCeil)
  {
    if FullBlockFits(parent) {
      forall used: Uint64, gasFloor: Uint64, gasCeil: Uint64 | used <= parent
        ensures StepInBound(parent, used, gasFloor, gasCeil)
      {
        StepWithin(parent, used, gasFloor, gasCeil);
      }
    } else {
      var most: Uint64 := WORD - 1;
      StepBeyond(parent, most);
    }
  }

  /** From 5 * 1024 up a full block always fits; just below, it need not. */
  lemma FullBlockFitsFrom(parent: Uint64)
    ensures 5 * BOUND_DIVISOR <= parent ==> FullBlockFits(parent)
    ensures !FullBlockFits(5 * BOUND_DIVISOR - 1)
  {
    var q := parent / BOUND_DIVISOR;
    assert parent < 1024 * q + 1024;
  }
}
