/** What the machine does to a new block: its gas limit, and the transfers of the DAO fork. */
module Machine {
  import opened Types
  import opened Accounts
  import opened Modular

  const PARITY_GAS_LIMIT_DETERMINANT: nat := 37

  /** Rounds to the next multiple of the determinant, or the one before when that is too high. */
  function RoundBlockGasLimit(gasLimit: nat, lower: nat, upper: nat): nat {
    var increased := gasLimit + (PARITY_GAS_LIMIT_DETERMINANT - gasLimit % PARITY_GAS_LIMIT_DETERMINANT);
    if increased > upper then
      var decreased := increased - PARITY_GAS_LIMIT_DETERMINANT;
      if decreased < lower then gasLimit else decreased
    else increased
  }

  /** The floor and ceiling a miner asks for, as a new block uses them. */
  function Targets(wantedFloor: nat, wantedCeil: nat, minGasLimit: nat): (r: (nat, nat))
    ensures Max(wantedFloor, minGasLimit) <= r.0 <= r.1 && wantedCeil <= r.1
    ensures (r.0 == wantedFloor || r.0 == minGasLimit) && (r.1 == wantedCeil || r.1 == r.0)
  {
    var floor := Max(wantedFloor, minGasLimit);
    (floor, Max(wantedCeil, floor))
  }

  /** The chain's bound divisor, and the range aimed at. */
  datatype Aim = Aim(floor: nat, ceil: nat, divisor: nat)

  ghost predicate Usable(aim: Aim, parent: nat) {
    0 < aim.divisor <= parent && aim.floor <= aim.ceil
  }

  /** How far a limit may move: at least one step, since the parent is not below the divisor. */
  function Quotient(aim: Aim, parent: nat): (q: nat)
    requires 0 < aim.divisor <= parent
    ensures 1 <= q <= parent
    ensures q * aim.divisor <= parent < q * aim.divisor + aim.divisor
  {
    QuotientPositive(parent, aim.divisor);
    QuotRem(parent, aim.divisor);
    Quot(parent, aim.divisor)
  }

  lemma QuotientPositive(parent: nat, divisor: nat)
    requires 0 < divisor <= parent
    ensures 1 <= Quot(parent, divisor) <= parent
  {
    QuotientGrows(divisor, parent, divisor);
    QuotRem(parent, divisor);
    QuotRem(divisor, divisor);
    DivModUnique(1, 0, divisor);
    MulGrows(1, divisor, Quot(parent, divisor));
  }

  function Lower(aim: Aim, parent: nat): nat
    requires 0 < aim.divisor <= parent
  {
    parent - Quotient(aim, parent) + 1
  }

  function Upper(aim: Aim, parent: nat): nat
    requires 0 < aim.divisor <= parent
  {
    parent + Quotient(aim, parent) - 1
  }

  /** The gas limit of a block on an ethash chain; `used` is the gas its header says is used. */
  function NextLimit(aim: Aim, parent: nat, used: nat): nat
    requires 0 < aim.divisor <= parent
  {
    var lower, upper := Lower(aim, parent), Upper(aim, parent);
    if parent < aim.floor then
      RoundBlockGasLimit(Min(aim.floor, upper), lower, upper)
    else if parent > aim.ceil then
      RoundBlockGasLimit(Max(aim.ceil, lower), lower, upper)
    else
      var totalLower, totalUpper := Max(lower, aim.floor), Min(upper, aim.ceil);
      var limit := Max(aim.floor, Min(totalUpper, lower + Quot(used * 6 / 5, aim.divisor)));
      RoundBlockGasLimit(limit, totalLower, totalUpper)
  }

  /** There is a multiple of the determinant from `lo` to `hi`. */
  predicate HasMultiple(lo: nat, hi: nat) {
    lo <= hi - hi % PARITY_GAS_LIMIT_DETERMINANT
  }

  lemma MultipleExists(lo: nat, hi: nat)
    ensures HasMultiple(lo, hi) <==> exists k: nat :: lo <= k * PARITY_GAS_LIMIT_DETERMINANT <= hi
  {
    var d := PARITY_GAS_LIMIT_DETERMINANT;
    if HasMultiple(lo, hi) {
      assert lo <= (hi / d) * d <= hi;
    }
    if k: nat :| lo <= k * d <= hi {
      assert k <= hi / d;
    }
  }

  /** Rounding stays in range, and reaches a multiple exactly when the range has one. */
  lemma RoundExactly(gasLimit: nat, lower: nat, upper: nat)
    requires lower <= gasLimit <= upper
    ensures var r := RoundBlockGasLimit(gasLimit, lower, upper);
            lower <= r <= upper && (r % PARITY_GAS_LIMIT_DETERMINANT == 0 <==> HasMultiple(lower, upper))
  {
    var d := PARITY_GAS_LIMIT_DETERMINANT;
    var down := gasLimit - gasLimit % d;
    assert down == (gasLimit / d) * d;
    assert (down + d) % d == 0;
    if down + d <= upper {
      assert (upper / d) * d >= down + d;
    } else {
      assert upper / d == gasLimit / d;
    }
  }

  /** The protocol bound: the limit moves by less than the quotient, whatever the targets. Both debug
      assertions hold, and the ceiling and floor hold once reached. */
  lemma NextLimitWithin(aim: Aim, parent: nat, used: nat)
    requires Usable(aim, parent)
    ensures Lower(aim, parent) <= NextLimit(aim, parent, used) <= Upper(aim, parent)
    ensures parent - Quotient(aim, parent) < NextLimit(aim, parent, used) < parent + Quotient(aim, parent)
    ensures aim.floor <= parent <= aim.ceil ==> aim.floor <= NextLimit(aim, parent, used) <= aim.ceil
  {
    var lower, upper := Lower(aim, parent), Upper(aim, parent);
    if parent < aim.floor {
      RoundExactly(Min(aim.floor, upper), lower, upper);
    } else if parent > aim.ceil {
      RoundExactly(Max(aim.ceil, lower), lower, upper);
    } else {
      InsideWithin(aim, parent, lower, upper, Quot(used * 6 / 5, aim.divisor));
    }
  }

  lemma InsideWithin(aim: Aim, parent: nat, lower: nat, upper: nat, share: nat)
    requires lower <= parent <= upper && aim.floor <= parent <= aim.ceil
    ensures var totalLower, totalUpper := Max(lower, aim.floor), Min(upper, aim.ceil);
            var limit := Max(aim.floor, Min(totalUpper, lower + share));
            totalLower <= RoundBlockGasLimit(limit, totalLower, totalUpper) <= totalUpper
  {
    var totalLower, totalUpper := Max(lower, aim.floor), Min(upper, aim.ceil);
    RoundExactly(Max(aim.floor, Min(totalUpper, lower + share)), totalLower, totalUpper);
  }

  /** Below the floor the limit rises exactly when it may move at all and rounding finds a multiple above the
      parent, or none within reach. */
  lemma {:induction false} RisesExactly(aim: Aim, parent: nat, used: nat)
    requires Usable(aim, parent) && parent < aim.floor
    ensures parent < NextLimit(aim, parent, used) <==>
              && Quotient(aim, parent) >= 2
              && (HasMultiple(parent + 1, Upper(aim, parent)) || !HasMultiple(Lower(aim, parent), parent))
  {
    var d := PARITY_GAS_LIMIT_DETERMINANT;
    var lower, upper := Lower(aim, parent), Upper(aim, parent);
    var limit := Min(aim.floor, upper);
    var down := limit - limit % d;
    assert down == (limit / d) * d && down <= limit < down + d;
    var top := upper - upper % d;
    assert top == (upper / d) * d && top <= upper < top + d;
    var under := parent - parent % d;
    assert under == (parent / d) * d && under <= parent < under + d;
    if down + d <= upper {
      assert upper / d >= limit / d + 1;
    } else {
      assert upper / d == limit / d;
      if down <= parent {
        assert limit / d == parent / d;
      }
    }
  }

  /** A limit that is a multiple of the determinant is stuck below the floor when the quotient is too
      small to reach the next multiple: it never moves again. */
  lemma StuckBelowFloor(aim: Aim, parent: nat, used: nat)
    requires Usable(aim, parent) && parent % PARITY_GAS_LIMIT_DETERMINANT == 0
    requires 2 <= Quotient(aim, parent) <= PARITY_GAS_LIMIT_DETERMINANT
    requires Upper(aim, parent) <= aim.floor
    ensures NextLimit(aim, parent, used) == parent
  {
    var d := PARITY_GAS_LIMIT_DETERMINANT;
    var upper := Upper(aim, parent);
    assert upper % d == upper - parent;
  }

  /** For instance 5032, the multiple of 37 that a limit of 5000 climbs to under the usual divisor. */
  lemma StuckExample(used: nat)
    ensures NextLimit(Aim(4_700_000, 6_283_184, 1024), 5032, used) == 5032
  {
    StuckBelowFloor(Aim(4_700_000, 6_283_184, 1024), 5032, used);
  }

  /** The first multiple of the determinant above `n`. */
  function NextMultiple(n: nat): (m: nat)
    ensures n < m <= n + PARITY_GAS_LIMIT_DETERMINANT && m % PARITY_GAS_LIMIT_DETERMINANT == 0
  {
    n - n % PARITY_GAS_LIMIT_DETERMINANT + PARITY_GAS_LIMIT_DETERMINANT
  }

  /** Above the ceiling the limit falls exactly when it may move at all and the multiple it is rounded to is out
      of reach or below the parent. */
  lemma FallsExactly(aim: Aim, parent: nat, used: nat)
    requires Usable(aim, parent) && aim.ceil < parent
    ensures NextLimit(aim, parent, used) < parent <==>
              && Quotient(aim, parent) >= 2
              && !(parent <= NextMultiple(Max(aim.ceil, Lower(aim, parent))) <= Upper(aim, parent))
  {
    var limit := Max(aim.ceil, Lower(aim, parent));
    assert limit - limit % PARITY_GAS_LIMIT_DETERMINANT + PARITY_GAS_LIMIT_DETERMINANT == NextMultiple(limit);
  }

  /** From above, the ceiling is met in the next block exactly when it is within reach and the first multiple
      above it is not; the target range is entered exactly when the multiple below the ceiling, if it is within
      reach, is not below the floor. */
  lemma EntersExactly(aim: Aim, parent: nat, used: nat)
    requires Usable(aim, parent) && aim.ceil < parent
    ensures NextLimit(aim, parent, used) <= aim.ceil <==>
              Lower(aim, parent) <= aim.ceil && Upper(aim, parent) < NextMultiple(aim.ceil)
    ensures aim.floor <= NextLimit(aim, parent, used) <= aim.ceil <==>
              && Lower(aim, parent) <= aim.ceil && Upper(aim, parent) < NextMultiple(aim.ceil)
              && !(Lower(aim, parent) <= NextMultiple(aim.ceil) - PARITY_GAS_LIMIT_DETERMINANT < aim.floor)
  {
    var d := PARITY_GAS_LIMIT_DETERMINANT;
    RoundExactly(Max(aim.ceil, Lower(aim, parent)), Lower(aim, parent), Upper(aim, parent));
    assert aim.ceil - aim.ceil % d + d == NextMultiple(aim.ceil);
  }

  /** For instance 5001 comes down into the range from 4000 to 5000, and 5030 goes up. */
  lemma EntersExample(used: nat)
    ensures NextLimit(Aim(4000, 5000, 1024), 5001, used) == 5000
    ensures NextLimit(Aim(4000, 5000, 1024), 5030, used) == 5032
  {
  }

  /** Above the ceiling too, a multiple of the determinant never moves again when the quotient is too small to
      leave it. */
  lemma StuckAboveCeil(aim: Aim, parent: nat, used: nat)
    requires Usable(aim, parent) && parent % PARITY_GAS_LIMIT_DETERMINANT == 0
    requires 2 <= Quotient(aim, parent) <= PARITY_GAS_LIMIT_DETERMINANT + 1
    requires aim.ceil <= Lower(aim, parent)
    ensures NextLimit(aim, parent, used) == parent
  {
    var d := PARITY_GAS_LIMIT_DETERMINANT;
    var lower := Lower(aim, parent);
    assert parent == (parent / d) * d;
    assert lower - lower % d == (lower / d) * d;
    assert lower / d == parent / d - 1;
  }

  /** With a quotient of at least 39 the limit falls until the ceiling is within reach, and then is the first
      multiple above it. */
  lemma FallsToMultiple(aim: Aim, parent: nat, used: nat)
    requires Usable(aim, parent) && aim.ceil < parent
    requires Quotient(aim, parent) >= PARITY_GAS_LIMIT_DETERMINANT + 2
    ensures NextMultiple(aim.ceil) <= NextLimit(aim, parent, used)
    ensures parent <= NextMultiple(aim.ceil) ==> NextLimit(aim, parent, used) == NextMultiple(aim.ceil)
    ensures NextMultiple(aim.ceil) < parent ==> NextLimit(aim, parent, used) < parent
  {
    var d := PARITY_GAS_LIMIT_DETERMINANT;
    var lower := Lower(aim, parent);
    assert NextMultiple(lower) == (lower / d + 1) * d && NextMultiple(aim.ceil) == (aim.ceil / d + 1) * d;
    if aim.ceil <= lower {
      assert aim.ceil / d <= lower / d;
    }
  }

  /** With a quotient of at least 38 and room above the floor, the limit rises and does not overshoot. */
  lemma RisesToRange(aim: Aim, parent: nat, used: nat)
    requires Usable(aim, parent) && parent < aim.floor
    requires Quotient(aim, parent) >= PARITY_GAS_LIMIT_DETERMINANT + 1
    requires aim.ceil - aim.floor >= PARITY_GAS_LIMIT_DETERMINANT
    ensures parent < NextLimit(aim, parent, used) <= aim.ceil
  {
    RisesExactly(aim, parent, used);
    var d := PARITY_GAS_LIMIT_DETERMINANT;
    var upper := Upper(aim, parent);
    assert upper % d < d;
  }

  // ---------------------------------------------------------------------------------------
  // Inside the range

  /** How far a block may go from its parent without leaving the range. */
  function Least(aim: Aim, parent: nat): nat
    requires 0 < aim.divisor <= parent
  {
    Max(aim.floor, parent - (Quotient(aim, parent) - 1))
  }

  function Most(aim: Aim, parent: nat): nat
    requires 0 < aim.divisor <= parent
  {
    Min(aim.ceil, parent + (Quotient(aim, parent) - 1))
  }

  /** What is aimed at before rounding: the least limit within reach, plus the divisor's share of six fifths of the gas
      used, cut to what is allowed. */
  function Goal(aim: Aim, parent: nat, used: nat): nat
    requires 0 < aim.divisor <= parent
  {
    var wanted := parent + 1 + Quot(used * 6 / 5, aim.divisor) - Quotient(aim, parent);
    if wanted <= aim.floor then aim.floor else Min(wanted, Most(aim, parent))
  }

  /** The goal is above the parent exactly when the share of the gas used is at least the quotient and there is room. It
      is below exactly when the share is smaller by two and there is room. */
  lemma GoalExactly(aim: Aim, parent: nat, used: nat)
    requires Usable(aim, parent) && aim.floor <= parent <= aim.ceil
    ensures var share, quotient := Quot(used * 6 / 5, aim.divisor), Quotient(aim, parent);
            && (parent < Goal(aim, parent, used) <==> quotient <= share && 2 <= quotient && parent < aim.ceil)
            && (Goal(aim, parent, used) < parent <==> share + 2 <= quotient && aim.floor < parent)
  {
  }

  /** Rounding goes up to the first multiple within reach, else down to the last one, else stays. */
  lemma RoundsTo(gasLimit: nat, lower: nat, upper: nat)
    requires lower <= gasLimit <= upper
    ensures RoundBlockGasLimit(gasLimit, lower, upper) ==
            if HasMultiple(gasLimit + 1, upper) then NextMultiple(gasLimit)
            else if HasMultiple(lower, gasLimit) then NextMultiple(gasLimit) - PARITY_GAS_LIMIT_DETERMINANT
            else gasLimit
  {
    var d := PARITY_GAS_LIMIT_DETERMINANT;
    var down := gasLimit - gasLimit % d;
    assert down == (gasLimit / d) * d && NextMultiple(gasLimit) == down + d;
    var top := upper - upper % d;
    assert top == (upper / d) * d;
    if down + d <= upper {
      assert upper / d >= gasLimit / d + 1;
    } else {
      assert upper / d == gasLimit / d;
    }
  }

  /** The limit is the goal, rounded. */
  lemma GoalRounded(aim: Aim, parent: nat, used: nat)
    requires Usable(aim, parent) && aim.floor <= parent <= aim.ceil
    ensures Least(aim, parent) <= Goal(aim, parent, used) <= Most(aim, parent)
    ensures NextLimit(aim, parent, used) ==
            RoundBlockGasLimit(Goal(aim, parent, used), Least(aim, parent), Most(aim, parent))
  {
  }

  /** Inside the range the limit rises exactly when the goal is above the parent, unless it is rounded down to the
      parent or below, or when the goal is not above but the first multiple after it is. */
  lemma {:induction false} RisesInside(aim: Aim, parent: nat, used: nat)
    requires Usable(aim, parent) && aim.floor <= parent <= aim.ceil
    ensures var goal, least, most := Goal(aim, parent, used), Least(aim, parent), Most(aim, parent);
            parent < NextLimit(aim, parent, used) <==>
              if HasMultiple(goal + 1, most) then !HasMultiple(goal + 1, parent)
              else parent < goal && (HasMultiple(parent + 1, goal) || !HasMultiple(least, goal))
  {
    GoalRounded(aim, parent, used);
    RoundsTo(Goal(aim, parent, used), Least(aim, parent), Most(aim, parent));
    MultipleWithin(Goal(aim, parent, used) + 1, parent);
    LastMultiple(Goal(aim, parent, used), parent + 1);
  }

  /** It falls exactly when there is a multiple after the goal and before the parent; or none after the goal within
      reach, and the goal is below the parent or is rounded down below it. */
  lemma {:induction false} FallsInside(aim: Aim, parent: nat, used: nat)
    requires Usable(aim, parent) && aim.floor <= parent <= aim.ceil
    ensures var goal, least, most := Goal(aim, parent, used), Least(aim, parent), Most(aim, parent);
            NextLimit(aim, parent, used) < parent <==>
              if HasMultiple(goal + 1, most) then HasMultiple(goal + 1, parent - 1)
              else goal < parent || (HasMultiple(least, goal) && !HasMultiple(parent, goal))
  {
    GoalRounded(aim, parent, used);
    RoundsTo(Goal(aim, parent, used), Least(aim, parent), Most(aim, parent));
    MultipleWithin(Goal(aim, parent, used) + 1, parent - 1);
    LastMultiple(Goal(aim, parent, used), parent);
  }

  /** A range from `n + 1` has a multiple exactly when it reaches the next one after `n`. */
  lemma MultipleWithin(lo: nat, hi: nat)
    requires lo > 0
    ensures HasMultiple(lo, hi) <==> NextMultiple(lo - 1) <= hi
  {
    var d := PARITY_GAS_LIMIT_DETERMINANT;
    assert NextMultiple(lo - 1) == ((lo - 1) / d + 1) * d && hi - hi % d == (hi / d) * d;
    if NextMultiple(lo - 1) <= hi {
      assert hi / d >= (lo - 1) / d + 1;
    } else {
      assert hi / d <= (lo - 1) / d;
    }
  }

  /** A range up to `n` has a multiple exactly when it starts at or below the last one up to `n`. */
  lemma LastMultiple(n: nat, lo: nat)
    ensures HasMultiple(lo, n) <==> lo <= NextMultiple(n) - PARITY_GAS_LIMIT_DETERMINANT
  {
  }

  /** More gas used never means a lower limit. */
  lemma UseRaises(aim: Aim, parent: nat, used: nat, more: nat)
    requires Usable(aim, parent) && used <= more
    ensures NextLimit(aim, parent, used) <= NextLimit(aim, parent, more)
  {
    if aim.floor <= parent <= aim.ceil {
      GoalRounded(aim, parent, used);
      GoalRounded(aim, parent, more);
      QuotientGrows(used * 6 / 5, more * 6 / 5, aim.divisor);
      RoundGrows(Goal(aim, parent, used), Goal(aim, parent, more), Least(aim, parent), Most(aim, parent));
    }
  }

  lemma RoundGrows(a: nat, b: nat, lower: nat, upper: nat)
    requires lower <= a <= b <= upper
    ensures RoundBlockGasLimit(a, lower, upper) <= RoundBlockGasLimit(b, lower, upper)
  {
    var d := PARITY_GAS_LIMIT_DETERMINANT;
    RoundsTo(a, lower, upper);
    RoundsTo(b, lower, upper);
    MultipleWithin(a + 1, upper);
    MultipleWithin(b + 1, upper);
    LastMultiple(a, lower);
    LastMultiple(b, lower);
    assert NextMultiple(a) == (a / d + 1) * d && NextMultiple(b) == (b / d + 1) * d && a / d <= b / d;
    if a / d < b / d {
      assert NextMultiple(a) <= NextMultiple(b) - d;
    }
  }

  /** Where an unused limit comes to rest: the first multiple above the floor, or the floor when the range has none. */
  function Rest(aim: Aim): nat {
    if NextMultiple(aim.floor) <= aim.ceil then NextMultiple(aim.floor) else aim.floor
  }

  /** When no gas is used, the limit comes down towards that with every block, given a quotient of at least 39. */
  lemma {:induction false} FallsToRest(aim: Aim, parent: nat)
    requires Usable(aim, parent) && aim.floor <= parent <= aim.ceil
    requires Quotient(aim, parent) >= PARITY_GAS_LIMIT_DETERMINANT + 2
    ensures Rest(aim) <= NextLimit(aim, parent, 0)
    ensures parent <= Rest(aim) ==> NextLimit(aim, parent, 0) == Rest(aim)
    ensures Rest(aim) < parent ==> NextLimit(aim, parent, 0) < parent
  {
    var d := PARITY_GAS_LIMIT_DETERMINANT;
    GoalRounded(aim, parent, 0);
    NoShare(aim.divisor);
    var least, most := Least(aim, parent), Most(aim, parent);
    assert Goal(aim, parent, 0) == least;
    RoundsTo(least, least, most);
    MultipleWithin(least + 1, most);
    LastMultiple(least, least);
    assert NextMultiple(least) == (least / d + 1) * d && NextMultiple(aim.floor) == (aim.floor / d + 1) * d;
    assert aim.floor / d <= least / d;
  }

  lemma NoShare(divisor: nat)
    requires 0 < divisor
    ensures Quot(0 * 6 / 5, divisor) == 0
  {
    QuotRem(0, divisor);
    DivModUnique(0, 0, divisor);
  }

  /** With a smaller quotient it is stuck on any multiple higher up. */
  lemma StuckInside(aim: Aim, parent: nat)
    requires Usable(aim, parent) && parent <= aim.ceil && parent % PARITY_GAS_LIMIT_DETERMINANT == 0
    requires 2 <= Quotient(aim, parent) <= PARITY_GAS_LIMIT_DETERMINANT + 1
    requires aim.floor <= parent - Quotient(aim, parent) + 1
    ensures NextLimit(aim, parent, 0) == parent
  {
    var d := PARITY_GAS_LIMIT_DETERMINANT;
    GoalRounded(aim, parent, 0);
    NoShare(aim.divisor);
    var least, most := Least(aim, parent), Most(aim, parent);
    RoundsTo(least, least, most);
    assert parent == (parent / d) * d && NextMultiple(least) == (least / d + 1) * d;
    assert least / d == parent / d - 1;
    MultipleWithin(least + 1, most);
  }

  /** For instance 5000000 falls to 4995148 when nothing is used. */
  lemma InsideExample()
    ensures NextLimit(Aim(4_700_000, 6_283_184, 1024), 5_000_000, 0) == 4_995_148
  {
    var aim := Aim(4_700_000, 6_283_184, 1024);
    GoalRounded(aim, 5_000_000, 0);
    NoShare(1024);
  }

  // ---------------------------------------------------------------------------------------
  // Over the chain

  /** The gas limits of successive blocks, none of them below the divisor. */
  ghost predicate Chain(aim: Aim, limits: seq<nat>, used: seq<nat>) {
    && |limits| == |used| + 1
    && 0 < aim.divisor && aim.floor <= aim.ceil
    && (forall i :: 0 <= i < |limits| ==> aim.divisor <= limits[i])
    && (forall i :: 0 <= i < |used| ==> limits[i + 1] == NextLimit(aim, limits[i], used[i]))
  }

  /** A limit in the range stays there for every later block. */
  lemma {:induction false} StaysInRange(aim: Aim, limits: seq<nat>, used: seq<nat>, i: nat, j: nat)
    requires Chain(aim, limits, used) && i <= j < |limits|
    requires aim.floor <= limits[i] <= aim.ceil
    ensures aim.floor <= limits[j] <= aim.ceil
    decreases j - i
  {
    if i < j {
      StaysInRange(aim, limits, used, i, j - 1);
      NextLimitWithin(aim, limits[j - 1], used[j - 1]);
    }
  }

  /** While no gas is used, a limit in the range comes down to its resting place within as many blocks as it is away,
      and stays there. */
  lemma {:induction false} SettlesAboveFloor(aim: Aim, limits: seq<nat>, used: seq<nat>, j: nat)
    requires Chain(aim, limits, used) && j < |limits| && forall i :: 0 <= i < |used| ==> used[i] == 0
    requires aim.floor <= limits[0] <= aim.ceil && aim.divisor <= aim.floor
    requires Quotient(aim, aim.floor) >= PARITY_GAS_LIMIT_DETERMINANT + 2
    ensures aim.floor <= limits[j] <= aim.ceil
    ensures 0 < j ==> Rest(aim) <= limits[j]
    ensures Rest(aim) < limits[j] ==> limits[j] + j <= limits[0]
    ensures 0 < j && limits[0] <= Rest(aim) + j ==> limits[j] == Rest(aim)
  {
    StaysInRange(aim, limits, used, 0, j);
    if 0 < j {
      SettlesAboveFloor(aim, limits, used, j - 1);
      QuotientGrows(aim.floor, limits[j - 1], aim.divisor);
      FallsToRest(aim, limits[j - 1]);
    }
  }

  /** From below, with a large enough quotient and room above the floor, the limit rises with every
      block until it is in the range, and is there after at most `floor - limits[0]` blocks. */
  lemma {:induction false} RisesIntoRange(aim: Aim, limits: seq<nat>, used: seq<nat>, j: nat)
    requires Chain(aim, limits, used) && j < |limits|
    requires limits[0] <= aim.ceil
    requires Quotient(aim, limits[0]) >= PARITY_GAS_LIMIT_DETERMINANT + 1
    requires aim.ceil - aim.floor >= PARITY_GAS_LIMIT_DETERMINANT
    ensures limits[j] <= aim.ceil
    ensures limits[j] < aim.floor ==> limits[0] + j <= limits[j]
    ensures limits[j] < aim.floor && j + 1 < |limits| ==> limits[j] < limits[j + 1]
    ensures aim.floor - limits[0] <= j ==> aim.floor <= limits[j]
  {
    if 0 < j {
      RisesIntoRange(aim, limits, used, j - 1);
      if limits[j - 1] >= aim.floor {
        StaysInRange(aim, limits, used, j - 1, j);
      }
    }
    if limits[j] < aim.floor {
      QuotientGrows(limits[0], limits[j], aim.divisor);
      if j + 1 < |limits| {
        RisesToRange(aim, limits[j], used[j]);
      }
    }
  }

  /** From above, with a quotient of at least 39 throughout, the target range is never entered: the limit comes
      down to the first multiple above the ceiling, after at most as many blocks as it is away, and stays. */
  lemma {:induction false} SettlesAboveCeil(aim: Aim, limits: seq<nat>, used: seq<nat>, j: nat)
    requires Chain(aim, limits, used) && j < |limits|
    requires aim.ceil < limits[0] && aim.divisor <= aim.ceil + 1
    requires Quotient(aim, aim.ceil + 1) >= PARITY_GAS_LIMIT_DETERMINANT + 2
    ensures aim.ceil < limits[j]
    ensures 0 < j ==> NextMultiple(aim.ceil) <= limits[j]
    ensures NextMultiple(aim.ceil) < limits[j] ==> limits[j] + j <= limits[0]
    ensures 0 < j && limits[0] <= NextMultiple(aim.ceil) + j ==> limits[j] == NextMultiple(aim.ceil)
  {
    if 0 < j {
      SettlesAboveCeil(aim, limits, used, j - 1);
      QuotientGrows(aim.ceil + 1, limits[j - 1], aim.divisor);
      FallsToMultiple(aim, limits[j - 1], used[j - 1]);
    }
  }

  lemma QuotientGrows(a: nat, b: nat, divisor: nat)
    requires 0 < divisor && a <= b
    ensures Quot(a, divisor) <= Quot(b, divisor)
  {
    var x, y := Quot(a, divisor), Quot(b, divisor);
    QuotRem(a, divisor);
    QuotRem(b, divisor);
    if y + 1 <= x {
      MulGrows(y + 1, x, divisor);
    }
  }

  // ---------------------------------------------------------------------------------------
  // The DAO fork

  /** All the balance of each account goes to the beneficiary, one after another. */
  function DaoMoved(w: World, children: seq<Address>, beneficiary: Address, start: nat): World {
    if children == [] then w
    else
      var last := |children| - 1;
      var w1 := DaoMoved(w, children[..last], beneficiary, start);
      Transfer(w1, children[last], beneficiary, Balance(w1, children[last]), NoEmpty, start)
  }

  /** The fork empties every listed account into the beneficiary, leaves the rest alone and loses
      nothing. */
  lemma {:induction false} DaoDrains(w: World, children: seq<Address>, beneficiary: Address, start: nat)
    ensures var w' := DaoMoved(w, children, beneficiary, start);
            && Total(w') == Total(w)
            && (forall a :: a in children && a != beneficiary ==> Balance(w', a) == 0)
            && (forall a :: a !in children && a != beneficiary ==> Balance(w', a) == Balance(w, a))
            && OnlyBalances(w, w', start)
  {
    if children != [] {
      var last := |children| - 1;
      DaoDrains(w, children[..last], beneficiary, start);
      var w1 := DaoMoved(w, children[..last], beneficiary, start);
      TransferTotal(w1, children[last], beneficiary, Balance(w1, children[last]), NoEmpty, start);
      TransferMoves(w1, children[last], beneficiary, Balance(w1, children[last]), NoEmpty, start);
      assert forall a :: a in children <==> a in children[..last] || a == children[last];
    }
  }
}
