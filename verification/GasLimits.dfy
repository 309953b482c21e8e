/** The gas limit of the next block, as in core/block_validator.go. */
module GasLimits {
  import opened Basics

  const GAS_LIMIT_BOUND_DIVISOR: nat := 1024
  const MIN_GAS_LIMIT: nat := 5000
  const MAX_GAS_LIMIT: nat := 0x7FFF_FFFF_FFFF_FFFF

  /** Unsigned 64-bit arithmetic. */
  function Wrap(n: int): nat {
    n % TWO_64
  }

  lemma NoWrap(n: int)
    requires 0 <= n < TWO_64
    ensures Wrap(n) == n
  {
  }

  function CalcGasLimit(gasLimit: nat, gasUsed: nat, gasFloor: nat, gasCeil: nat): nat {
    var contrib := Wrap(gasUsed + gasUsed / 2) / GAS_LIMIT_BOUND_DIVISOR;
    var decay := Wrap(gasLimit / GAS_LIMIT_BOUND_DIVISOR - 1);
    var drift := Wrap(gasLimit - decay + contrib);
    var limit := if drift < MIN_GAS_LIMIT then MIN_GAS_LIMIT else drift;
    if limit < gasFloor then
      (if Wrap(gasLimit + decay) > gasFloor then gasFloor else Wrap(gasLimit + decay))
    else if limit > gasCeil then
      (if Wrap(gasLimit - decay) < gasCeil then gasCeil else Wrap(gasLimit - decay))
    else limit
  }

  /** A block whose limit fits into 63 bits, as header verification demands, and whose usage keeps to it. */
  predicate Block(gasLimit: nat, gasUsed: nat) {
    MIN_GAS_LIMIT <= gasLimit <= MAX_GAS_LIMIT && gasUsed <= gasLimit
  }

  predicate Targets(gasFloor: nat, gasCeil: nat) {
    MIN_GAS_LIMIT <= gasCeil <= MAX_GAS_LIMIT && gasFloor <= MAX_GAS_LIMIT
  }

  /** Without wrap-around the limit moves by the contribution of the used gas less the decay. */
  lemma Unwrapped(gasLimit: nat, gasUsed: nat, gasFloor: nat, gasCeil: nat, contrib: nat, decay: nat, limit: nat)
    requires Block(gasLimit, gasUsed) && Targets(gasFloor, gasCeil)
    requires contrib == (gasUsed + gasUsed / 2) / 1024 && decay == gasLimit / 1024 - 1
    requires limit == if gasLimit - decay + contrib < MIN_GAS_LIMIT then MIN_GAS_LIMIT else gasLimit - decay + contrib
    ensures CalcGasLimit(gasLimit, gasUsed, gasFloor, gasCeil) ==
            if limit < gasFloor then (if gasLimit + decay > gasFloor then gasFloor else gasLimit + decay)
            else if limit > gasCeil then (if gasLimit - decay < gasCeil then gasCeil else gasLimit - decay)
            else limit
  {
    NoWrap(gasUsed + gasUsed / 2);
    NoWrap(gasLimit / GAS_LIMIT_BOUND_DIVISOR - 1);
    NoWrap(gasLimit - decay + contrib);
    NoWrap(gasLimit + decay);
    NoWrap(gasLimit - decay);
  }

  predicate Near(gasLimit: nat, next: nat) {
    gasLimit - gasLimit / 1024 < next < gasLimit + gasLimit / 1024
  }

  /** The new limit is close enough to the old one to be valid, exactly unless a nearly full small block raises it
      by four. It is always at least the minimum. */
  lemma StaysValid(gasLimit: nat, gasUsed: nat, gasFloor: nat, gasCeil: nat)
    requires Block(gasLimit, gasUsed) && Targets(gasFloor, gasCeil)
    ensures var next := CalcGasLimit(gasLimit, gasUsed, gasFloor, gasCeil);
            && MIN_GAS_LIMIT <= next
            && (Near(gasLimit, next) <==>
                !(gasLimit < 5120 && 7 <= (gasUsed + gasUsed / 2) / 1024 && gasFloor <= gasLimit + 4 <= gasCeil))
  {
    var contrib, decay := (gasUsed + gasUsed / 2) / 1024, gasLimit / 1024 - 1;
    var limit := if gasLimit - decay + contrib < MIN_GAS_LIMIT then MIN_GAS_LIMIT else gasLimit - decay + contrib;
    Unwrapped(gasLimit, gasUsed, gasFloor, gasCeil, contrib, decay, limit);
  }

  /** Such a block exists. */
  lemma CanMoveTooFar()
    ensures Block(5119, 5119) && !Near(5119, CalcGasLimit(5119, 5119, 0, 10000))
  {
    StaysValid(5119, 5119, 0, 10000);
  }

  function Min(a: nat, b: nat): nat {
    if a < b then a else b
  }

  /** The limit after blocks that use the given gas, each as far as its limit allows. */
  function After(gasLimit: nat, used: seq<nat>, gasFloor: nat, gasCeil: nat): nat
    decreases |used|
  {
    if used == [] then gasLimit
    else After(CalcGasLimit(gasLimit, Min(used[0], gasLimit), gasFloor, gasCeil), used[1..], gasFloor, gasCeil)
  }

  /** How far the limit is from the targets. */
  function Away(gasLimit: nat, gasFloor: nat, gasCeil: nat): nat {
    if gasLimit < gasFloor then gasFloor - gasLimit else if gasCeil < gasLimit then gasLimit - gasCeil else 0
  }

  lemma Closer(gasLimit: nat, gasUsed: nat, gasFloor: nat, gasCeil: nat)
    requires Block(gasLimit, gasUsed) && Targets(gasFloor, gasCeil) && gasFloor <= gasCeil
    ensures var next := CalcGasLimit(gasLimit, gasUsed, gasFloor, gasCeil);
            && MIN_GAS_LIMIT <= next <= MAX_GAS_LIMIT
            && (Away(next, gasFloor, gasCeil) == 0 || Away(next, gasFloor, gasCeil) < Away(gasLimit, gasFloor, gasCeil))
  {
    var contrib, decay := (gasUsed + gasUsed / 2) / 1024, gasLimit / 1024 - 1;
    var limit := if gasLimit - decay + contrib < MIN_GAS_LIMIT then MIN_GAS_LIMIT else gasLimit - decay + contrib;
    Unwrapped(gasLimit, gasUsed, gasFloor, gasCeil, contrib, decay, limit);
    StaysValid(gasLimit, gasUsed, gasFloor, gasCeil);
  }

  /** Whatever the blocks use, the limit reaches the targets in finitely many blocks and never leaves them. */
  lemma {:induction false} ReachesTargets(gasLimit: nat, used: seq<nat>, gasFloor: nat, gasCeil: nat)
    requires MIN_GAS_LIMIT <= gasLimit <= MAX_GAS_LIMIT && Targets(gasFloor, gasCeil) && gasFloor <= gasCeil
    requires Away(gasLimit, gasFloor, gasCeil) <= |used|
    ensures gasFloor <= After(gasLimit, used, gasFloor, gasCeil) <= gasCeil
    decreases |used|
  {
    if used != [] {
      Closer(gasLimit, Min(used[0], gasLimit), gasFloor, gasCeil);
      ReachesTargets(CalcGasLimit(gasLimit, Min(used[0], gasLimit), gasFloor, gasCeil), used[1..], gasFloor, gasCeil);
    }
  }
}
