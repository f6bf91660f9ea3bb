/**
 * The remaining-seconds fields of the status report:
 * MAX(0, int((deadline - now) / 1000)) with C's truncating division.
 */
module Timers {

  const MILLIS_PER_SECOND: nat := 1000

  /** C's integer division, which truncates toward zero (Dafny's `/` is Euclidean). */
  function TruncDiv(a: int, b: int): int
    requires b > 0
  {
    if a >= 0 then a / b else -((-a) / b)
  }

  /**
   * Whole seconds left before a deadline: never negative, zero once less
   * than a second is left, and otherwise the number of full seconds left.
   */
  function RemainingSeconds(deadline: int, now: int): (r: int)
    ensures r >= 0
    ensures r == 0 <==> deadline - now < MILLIS_PER_SECOND
    ensures r > 0 ==> MILLIS_PER_SECOND * r <= deadline - now < MILLIS_PER_SECOND * (r + 1)
  {
    var q := TruncDiv(deadline - now, MILLIS_PER_SECOND);
    if 0 > q then 0 else q
  }

  /** For a fixed deadline the countdown never goes up as time passes. */
  lemma RemainingNonIncreasing(deadline: int, now1: int, now2: int)
    requires now1 <= now2
    ensures RemainingSeconds(deadline, now2) <= RemainingSeconds(deadline, now1)
  {
  }
}
