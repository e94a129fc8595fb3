// Reconnect backoff of the managed peer session (crates/akraz-daemon/src/lib.rs). Durations and
// instants are nanoseconds; both have a largest representable value.
module Backoff {
  import opened Wrappers
  import opened Ints

  // Duration::MAX: u64::MAX seconds and 999_999_999 nanoseconds.
  const DURATION_MAX: nat := U64_MAX * 1_000_000_000 + 999_999_999

  type Duration = d: nat | d <= DURATION_MAX

  function Min(a: nat, b: nat): nat { if a <= b then a else b }

  // initial * 2^k
  function Doubled(initial: nat, k: nat): nat { if k == 0 then initial else 2 * Doubled(initial, k - 1) }

  function Pow2(k: nat): nat { if k == 0 then 1 else 2 * Pow2(k - 1) }

  lemma {:induction false} DoubledIsAProduct(initial: nat, k: nat)
    ensures Doubled(initial, k) == initial * Pow2(k)
  {
    if k == 0 {
    } else {
      DoubledIsAProduct(initial, k - 1);
      assert initial * (2 * Pow2(k - 1)) == 2 * (initial * Pow2(k - 1));
    }
  }

  // The wait after the n-th failure in a row.
  function DelayAfter(initial: Duration, max: Duration, n: nat): Duration {
    if n == 0 then 0 else Min(max, Doubled(initial, n - 1))
  }

  lemma {:induction false} DoubledGrows(initial: nat, k: nat, l: nat)
    requires k <= l
    ensures Doubled(initial, k) <= Doubled(initial, l)
  {
    if k == l {
    } else {
      DoubledGrows(initial, k, l - 1);
    }
  }

  // The wait is the capped power of two; it never gets shorter with more failures, and never
  // exceeds the maximum.
  lemma {:induction false} DelayIsACappedPower(initial: Duration, max: Duration, m: nat, n: nat)
    requires m <= n
    ensures n > 0 ==> DelayAfter(initial, max, n) == Min(max, initial * Pow2(n - 1))
    ensures DelayAfter(initial, max, m) <= DelayAfter(initial, max, n) <= max
  {
    if 0 < n { DoubledIsAProduct(initial, n - 1); }
    if 0 < m { DoubledGrows(initial, m - 1, n - 1); }
  }

  class ReconnectBackoff {
    var consecutiveFailures: u32
    var nextAllowedAt: Option<nat>
    const initialDelay: Duration
    const maxDelay: Duration
    // The largest instant that the clock can represent.
    const instantMax: nat

    constructor (initialDelay: Duration, maxDelay: Duration, instantMax: nat)
      ensures consecutiveFailures == 0 && nextAllowedAt == None
      ensures this.initialDelay == initialDelay && this.maxDelay == maxDelay && this.instantMax == instantMax
    {
      this.initialDelay, this.maxDelay, this.instantMax := initialDelay, maxDelay, instantMax;
      consecutiveFailures, nextAllowedAt := 0, None;
    }

    // How much longer to wait; none from the deadline on.
    function RetryAfter(now: nat): (wait: Option<nat>)
      reads this
      ensures wait.Some? <==> nextAllowedAt.Some? && now < nextAllowedAt.value
      ensures wait.Some? ==> wait.value > 0 && now + wait.value == nextAllowedAt.value
    {
      var deadline :- nextAllowedAt;
      if deadline < now || deadline - now == 0 then None else Some(deadline - now)
    }

    // Doubling with an overflow check computes the capped power of two.
    method DelayForFailure(failureCount: u32) returns (delay: Duration)
      ensures delay == DelayAfter(initialDelay, maxDelay, failureCount)
    {
      if failureCount == 0 {
        return 0;
      }
      delay := Min(initialDelay, maxDelay);
      var i := 1;
      while i < failureCount
        invariant 1 <= i <= failureCount
        invariant delay == Min(maxDelay, Doubled(initialDelay, i - 1))
      {
        var doubled := 2 * delay;
        delay := if doubled <= DURATION_MAX then doubled else maxDelay;
        if delay >= maxDelay {
          DoubledGrows(initialDelay, i, failureCount - 1);
          return maxDelay;
        }
        i := i + 1;
      }
    }

    method RecordFailure(now: nat) returns (delay: Duration)
      modifies this
      ensures (consecutiveFailures, nextAllowedAt, delay) ==
        Failed(old(consecutiveFailures), now, initialDelay, maxDelay, instantMax)
    {
      consecutiveFailures := if consecutiveFailures == U32_MAX then U32_MAX else consecutiveFailures + 1;
      delay := DelayForFailure(consecutiveFailures);
      nextAllowedAt := Some(if now + delay <= instantMax then now + delay else now);
    }

    method Reset()
      modifies this
      ensures consecutiveFailures == 0 && nextAllowedAt == None
    {
      consecutiveFailures, nextAllowedAt := 0, None;
    }
  }

  function Saturated(n: nat): u32 { Min(n, U32_MAX) }

  // Failure count, deadline and delay after one more failure. A deadline past the end of the clock
  // falls back to the present.
  function Failed(count: u32, now: nat, initial: Duration, max: Duration, instantMax: nat)
    : (u32, Option<nat>, Duration)
  {
    var count' := Saturated(count + 1);
    var delay := DelayAfter(initial, max, count');
    (count', Some(if now + delay <= instantMax then now + delay else now), delay)
  }

  // ---- Runs ------------------------------------------------------------------------------------

  datatype Event = Failure(at: nat) | Success

  function Run(events: seq<Event>, initial: Duration, max: Duration, instantMax: nat): (u32, Option<nat>) {
    if events == [] then (0, None)
    else
      var before := Run(events[..|events| - 1], initial, max, instantMax);
      match events[|events| - 1]
      case Success => (0, None)
      case Failure(now) => var after := Failed(before.0, now, initial, max, instantMax); (after.0, after.1)
  }

  // Failures at the end of a run, since the last success.
  function TrailingFailures(events: seq<Event>): nat {
    if events == [] || events[|events| - 1].Success? then 0 else 1 + TrailingFailures(events[..|events| - 1])
  }

  // The counter is the saturated number of failures since the last success, and the deadline lies
  // the capped power of two after the last failure, or at it if the clock cannot count that far.
  lemma {:induction false} CountsFailuresSinceSuccess(
    events: seq<Event>, initial: Duration, max: Duration, instantMax: nat)
    ensures var (count, deadline) := Run(events, initial, max, instantMax);
      && count == Saturated(TrailingFailures(events))
      && (deadline.None? <==> TrailingFailures(events) == 0)
      && (TrailingFailures(events) > 0 ==>
            var now := events[|events| - 1].at;
            var n := Saturated(TrailingFailures(events));
            && deadline == Some(if now + DelayAfter(initial, max, n) <= instantMax
                                then now + DelayAfter(initial, max, n) else now))
    decreases |events|
  {
    if events == [] {
    } else {
      CountsFailuresSinceSuccess(events[..|events| - 1], initial, max, instantMax);
    }
  }
}
