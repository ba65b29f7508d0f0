/**
 * The reconnection backoff delay: doubled after every reconnect cycle and
 * capped at `backoffDelayMax`, reset to `backoffDelayMin` on open.
 */
module Backoff {

  /** `d *= 2; if (d > max) d = max;` */
  function NextDelay(d: int, max: int): (r: int)
    ensures r <= max
    ensures r == 2 * d || r == max
    ensures 2 * d <= max ==> r == 2 * d
  {
    if 2 * d > max then max else 2 * d
  }

  /** The delay announced by the reconnect cycle that follows `n` earlier cycles since the last reset. */
  function DelayAfter(min: int, max: int, n: nat): (d: int)
    ensures n == 0 ==> d == min
    ensures n > 0 || min <= max ==> d <= max
    ensures 0 < min <= max ==> min <= d
    decreases n
  {
    if n == 0 then min else NextDelay(DelayAfter(min, max, n - 1), max)
  }

  function Pow2(n: nat): (r: nat)
    ensures r >= 1
  {
    if n == 0 then 1 else 2 * Pow2(n - 1)
  }

  /** For a positive minimum not above the maximum, the n-th delay is `min(min * 2^n, max)`. */
  lemma {:induction false} DelayClosedForm(min: int, max: int, n: nat)
    requires 0 < min <= max
    ensures DelayAfter(min, max, n) == if min * Pow2(n) > max then max else min * Pow2(n)
    decreases n
  {
    if n > 0 {
      DelayClosedForm(min, max, n - 1);
      assert min * Pow2(n) == 2 * (min * Pow2(n - 1));
      assert min * Pow2(n - 1) >= min;
    }
  }

  /** With the defaults the announced delays are 1000, 2000, 4000, ..., 64000 and then stay at 64000. */
  lemma DefaultDelays(n: nat)
    ensures DelayAfter(1000, 64000, n) == if n <= 6 then 1000 * Pow2(n) else 64000
  {
    DelayClosedForm(1000, 64000, n);
    if n > 6 {
      PowGrows(6, n);
      assert Pow2(6) == 64;
    } else {
      assert Pow2(0) == 1 && Pow2(1) == 2 && Pow2(2) == 4 && Pow2(3) == 8;
      assert Pow2(4) == 16 && Pow2(5) == 32 && Pow2(6) == 64;
    }
  }

  lemma {:induction false} PowGrows(m: nat, n: nat)
    requires m < n
    ensures Pow2(m) < Pow2(n)
    decreases n
  {
    if m < n - 1 { PowGrows(m, n - 1); }
  }

  /** The delay never leaves [min, max] and never decreases between resets. */
  lemma DelayBoundedMonotone(min: int, max: int, n: nat)
    requires 0 < min <= max
    ensures min <= DelayAfter(min, max, n) <= max
    ensures DelayAfter(min, max, n) <= DelayAfter(min, max, n + 1)
  {
    DelayClosedForm(min, max, n);
    DelayClosedForm(min, max, n + 1);
    assert min * Pow2(n + 1) == 2 * (min * Pow2(n));
    assert min * Pow2(n) >= min;
  }
}
