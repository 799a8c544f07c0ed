/** The progress counter of one bar: a left click steps it by the configured increment, clamped at
    the total, and a click on a full bar starts it over at 0; a reset sets it to 0. Arithmetic
    and comparisons are JavaScript's, so a missing or unparsable `total` or `increment` behaves
    as it does in the plugin.
 */
module ProgressState {
  import opened JsNumber

  function Min(a: int, b: int): int {
    if a <= b then a else b
  }

  /** `incrementProgress`: below the total, add the increment and clamp to the total; otherwise
      (full, or a total that does not compare) start over at 0. */
  function Increment(progress: Num, total: Num, increment: Num): (r: Num)
    ensures Less(progress, total) && increment.Int? ==> r == Int(Min(progress.value + increment.value, total.value))
    ensures Less(progress, total) && !increment.Int? ==> r == NaN
    ensures !Less(progress, total) ==> r == Int(0)
  {
    if Less(progress, total) then
      var stepped := Plus(progress, increment);
      if Less(total, stepped) then total else stepped
    else
      Int(0)
  }

  /** `resetProgress`. */
  const Reset: Num := Int(0)

  /** The bound every well-configured bar keeps. */
  predicate InRange(progress: Num, total: Num) {
    progress.Int? && total.Int? && 0 <= progress.value <= total.value
  }

  /** With a positive total and a non-negative increment, stepping never leaves `0..total`,
      whatever non-negative progress it starts from (a stale value above the total included). */
  lemma IncrementInRange(progress: Num, total: Num, increment: Num)
    requires progress.Int? && 0 <= progress.value
    requires total.Int? && 0 < total.value
    requires increment.Int? && 0 <= increment.value
    ensures InRange(Increment(progress, total, increment), total)
  {
  }

  /** A reset is always in range of a non-negative total. */
  lemma ResetInRange(total: Num)
    requires total.Int? && 0 <= total.value
    ensures InRange(Reset, total)
  {
  }

  /** Without a `total` line the total stays `undefined`, nothing compares below it, and every
      click sets the bar to 0. */
  lemma MissingTotalPinsAtZero(progress: Num, increment: Num)
    ensures Increment(progress, Undefined, increment) == Int(0)
  {
  }

  // ---------------------------------------------------------------------------------------------
  // Repeated clicks
  // ---------------------------------------------------------------------------------------------

  /** The progress after `n` left clicks. */
  function Clicks(n: nat, progress: Num, total: Num, increment: Num): Num {
    if n == 0 then progress else Increment(Clicks(n - 1, progress, total, increment), total, increment)
  }

  /** Clicks compose: `a` clicks then `b` clicks are `a + b` clicks. */
  lemma {:induction false} ClicksAdd(a: nat, b: nat, progress: Num, total: Num, increment: Num)
    ensures Clicks(a + b, progress, total, increment)
         == Clicks(b, Clicks(a, progress, total, increment), total, increment)
  {
    if b > 0 {
      ClicksAdd(a, b - 1, progress, total, increment);
    }
  }

  /** The number of clicks that fill an empty bar: the total divided by the increment, rounded up. */
  function ClicksToFill(total: int, increment: int): (n: nat)
    requires 0 < total && 0 < increment
    ensures 0 < n
    ensures (n - 1) * increment < total <= n * increment
  {
    var n := (total + increment - 1) / increment;
    assert n * increment + (total + increment - 1) % increment == total + increment - 1;
    n
  }

  /** While the bar is filling, each click adds exactly the increment. */
  lemma {:induction false} Filling(k: nat, total: int, increment: int)
    requires 0 < increment
    requires k * increment < total
    ensures Clicks(k, Int(0), Int(total), Int(increment)) == Int(k * increment)
  {
    if k > 0 {
      assert (k - 1) * increment == k * increment - increment;
      Filling(k - 1, total, increment);
    }
  }

  /** From empty, `ceil(total / increment)` clicks fill the bar exactly. */
  lemma Fills(total: int, increment: int)
    requires 0 < total && 0 < increment
    ensures Clicks(ClicksToFill(total, increment), Int(0), Int(total), Int(increment)) == Int(total)
  {
    var n := ClicksToFill(total, increment);
    Filling(n - 1, total, increment);
    assert (n - 1) * increment + increment == n * increment;
  }

  /** One more click on the full bar empties it. */
  lemma Wraps(total: int, increment: int)
    requires 0 < total && 0 < increment
    ensures Clicks(ClicksToFill(total, increment) + 1, Int(0), Int(total), Int(increment)) == Int(0)
  {
    Fills(total, increment);
  }

  /** So from empty the bar cycles with period `ceil(total / increment) + 1`. */
  lemma Periodic(m: nat, total: int, increment: int)
    requires 0 < total && 0 < increment
    ensures Clicks(ClicksToFill(total, increment) + 1 + m, Int(0), Int(total), Int(increment))
         == Clicks(m, Int(0), Int(total), Int(increment))
  {
    var n := ClicksToFill(total, increment) + 1;
    ClicksAdd(n, m, Int(0), Int(total), Int(increment));
    Wraps(total, increment);
  }

  /** A zero increment never moves an empty bar. */
  lemma {:induction false} ZeroIncrementStays(n: nat, total: Num)
    ensures Clicks(n, Int(0), total, Int(0)) == Int(0)
  {
    if n > 0 {
      ZeroIncrementStays(n - 1, total);
    }
  }
}
