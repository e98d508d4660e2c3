/**
 The polling wait with exponential back-off.  The clock is exact and the condition callback takes no time,
 so the only time that passes is the time slept.
 */
module WaitForCondition {
  import opened Wrappers

  const MIN_RECHECK_DELAY: real := 0.001
  const MAX_RECHECK_DELAY: real := 0.050

  function Min(a: real, b: real): real {
    if a < b then a else b
  }

  /** The k-th delay of the back-off when the remaining time does not cap it. */
  function Delay(k: nat): real {
    if k == 0 then MIN_RECHECK_DELAY else Min(2.0 * Delay(k - 1), MAX_RECHECK_DELAY)
  }

  /** The time slept in the first k such delays. */
  function Slept(k: nat): real {
    if k == 0 then 0.0 else Slept(k - 1) + Delay(k - 1)
  }

  /** n uncapped sleeps, and no fewer, reach the timeout. */
  ghost predicate IsSleepCount(n: nat, timeout: real) {
    timeout <= Slept(n) && (n > 0 ==> Slept(n - 1) < timeout)
  }

  /** The time that passes in n sleeps with a timeout that the first n - 1 do not use up.  The last delay is capped
      by the time that remained before the sleep before it. */
  function Elapsed(n: nat, timeout: real): real {
    if n == 0 then 0.0
    else if n == 1 then Delay(0)
    else Slept(n - 1) + Min(Delay(n - 1), timeout - Slept(n - 2))
  }

  lemma {:induction false} DelayBounds(k: nat)
    ensures MIN_RECHECK_DELAY <= Delay(k) <= MAX_RECHECK_DELAY
  {
    if k > 0 { DelayBounds(k - 1); }
  }

  /** The cap makes no difference to sleeps that do not use up the timeout. */
  lemma UncappedElapsed(n: nat, timeout: real)
    requires Slept(n) < timeout
    ensures Elapsed(n, timeout) == Slept(n)
  {
    if n > 1 { DelayBounds(n - 2); }
  }

  /** The delays are 1, 2, 4, 8, 16 and 32 ms, and 50 ms from then on. */
  lemma {:induction false} SleptClosedForm(k: nat)
    ensures k <= 5 ==> 1000.0 * Delay(k) == [1.0, 2.0, 4.0, 8.0, 16.0, 32.0][k]
    ensures k <= 5 ==> 1000.0 * Slept(k) == [0.0, 1.0, 3.0, 7.0, 15.0, 31.0][k]
    ensures k >= 6 ==> 1000.0 * Delay(k) == 50.0 && 1000.0 * Slept(k) == 63.0 + 50.0 * (k - 6) as real
  {
    if k > 0 { SleptClosedForm(k - 1); }
  }

  /** A wait of n sleeps that times out returns no earlier than the deadline and less than 50 ms after it. */
  lemma OvershootBelowMaxDelay(n: nat, timeout: real)
    requires 0.0 <= timeout && IsSleepCount(n, timeout)
    ensures timeout <= Elapsed(n, timeout) < timeout + MAX_RECHECK_DELAY
  {
    if n > 0 { DelayBounds(n - 1); }
    if n > 1 { DelayBounds(n - 2); }
  }

  /** The stale cap shortens the last sleep: a timeout of 4 ms is over after sleeps of 1, 2 and 3 ms, not 4. */
  lemma FourMilliseconds()
    ensures IsSleepCount(3, 0.004) && Elapsed(3, 0.004) == 0.006 && Slept(3) == 0.007
  {
    SleptClosedForm(1);
    SleptClosedForm(2);
    SleptClosedForm(3);
  }

  /** The 50 ms cannot be improved: some timeouts are overshot by all but eps of it. */
  lemma OvershootIsTight(eps: real)
    requires 0.0 < eps <= MAX_RECHECK_DELAY
    ensures exists n: nat, timeout: real :: 0.0 <= timeout && IsSleepCount(n, timeout)
              && Elapsed(n, timeout) == timeout + MAX_RECHECK_DELAY - eps
  {
    SleptClosedForm(6);
    SleptClosedForm(7);
    SleptClosedForm(8);
    var timeout := Slept(7) + eps;
    assert IsSleepCount(8, timeout) && Elapsed(8, timeout) == timeout + MAX_RECHECK_DELAY - eps;
  }

  /** The number of sleeps grows with the timeout at 20 a second. */
  lemma SleepCountBound(n: nat, timeout: real)
    requires IsSleepCount(n, timeout)
    ensures n <= 6 || 50.0 * (n - 7) as real < 1000.0 * timeout - 63.0
    ensures timeout <= 0.0 <==> n == 0
  {
    if n > 0 {
      SleptClosedForm(n - 1);
      SleptNonNegative(n - 1);
    }
  }

  lemma SleptNonNegative(k: nat)
    ensures 0.0 <= Slept(k)
  {
    if k > 0 { DelayBounds(k - 1); SleptNonNegative(k - 1); }
  }

  /**
   condition(k) is what the callback returns at check number k.  The cap by the stale remaining time changes
   neither the number of checks nor any sleep but the last.
   */
  method WaitForCondition(condition: nat -> bool, start: real, timeout: Option<real>)
    returns (met: bool, checks: nat, end: real)
    requires timeout.None? ==> exists k: nat :: condition(k)
    ensures 1 <= checks
    ensures met ==> condition(checks - 1) && forall k: nat :: k < checks - 1 ==> !condition(k)
    ensures !met ==> timeout.Some? && forall k: nat :: k < checks ==> !condition(k)
    ensures !met ==> IsSleepCount(checks - 1, timeout.value) && end == start + Elapsed(checks - 1, timeout.value)
    ensures met && timeout.Some? && checks > 1 ==> Slept(checks - 2) < timeout.value
    ensures met && timeout.Some? ==> end == start + Elapsed(checks - 1, timeout.value)
    ensures met && timeout.None? ==> end == start + Slept(checks - 1)
  {
    var now := start;
    var deadline := if timeout.None? then None else Some(now + timeout.value);
    var delay := MIN_RECHECK_DELAY;
    ghost var witnessCheck: nat :| timeout.None? ==> condition(witnessCheck);
    checks := 0;
    while true
      invariant forall k: nat :: k < checks ==> !condition(k)
      invariant timeout.None? ==> checks <= witnessCheck && delay == Delay(checks) && now == start + Slept(checks)
      invariant timeout.Some? && checks > 0 ==> (
        && Slept(checks - 1) < timeout.value
        && now == start + if timeout.value <= now - start then Elapsed(checks, timeout.value) else Slept(checks))
      invariant timeout.Some? && now - start < timeout.value ==> now - start == Slept(checks)
      invariant timeout.Some? && now - start < timeout.value ==>
        delay == if checks == 0 then Delay(0) else Min(Delay(checks), timeout.value - Slept(checks - 1))
      invariant timeout.Some? ==> now - start <= Slept(checks)
      invariant checks == 0 ==> now == start
      invariant MIN_RECHECK_DELAY <= delay || (timeout.Some? && timeout.value <= now - start)
      decreases
        if timeout.None? then witnessCheck - checks
        else if timeout.value <= now - start then 0
        else 1 + (1000.0 * (timeout.value - (now - start))).Floor
    {
      if timeout.Some? && now - start < timeout.value { UncappedElapsed(checks, timeout.value); }
      checks := checks + 1;
      if condition(checks - 1) {
        return true, checks, now;
      }
      var remainingTime := if deadline.None? then MAX_RECHECK_DELAY else deadline.value - now;
      if remainingTime <= 0.0 {
        return false, checks, now;
      }
      DelayBounds(checks - 1);
      DelayBounds(checks);
      now := now + delay;
      delay := Min(Min(delay * 2.0, remainingTime), MAX_RECHECK_DELAY);
    }
  }
}
