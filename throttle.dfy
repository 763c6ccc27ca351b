/**
 * `useThrottle`: the returned function fires the callback only when at least
 * `delay` has passed since the last call that fired; calls inside the window
 * are dropped, not queued. The clock reading `new Date().getTime()` is the
 * parameter `now`.
 */
module Throttle {

  /** The gate: a call at `now` fires when `now - lastCall >= delay`. */
  predicate Fires(lastCall: int, now: int, delay: int)
  {
    now - lastCall >= delay
  }

  /** The times, in order, at which calls made at `times` fire, the gate starting at `lastCall`. */
  function FiredTimes(lastCall: int, times: seq<int>, delay: int): seq<int>
    decreases |times|
  {
    if times == [] then []
    else if Fires(lastCall, times[0], delay) then [times[0]] + FiredTimes(times[0], times[1..], delay)
    else FiredTimes(lastCall, times[1..], delay)
  }

  /** The gate's timestamp after calls made at `times`, starting at `lastCall`. */
  function LastFired(lastCall: int, times: seq<int>, delay: int): int
    decreases |times|
  {
    if times == [] then lastCall
    else LastFired(if Fires(lastCall, times[0], delay) then times[0] else lastCall, times[1..], delay)
  }

  /** The first fired time is `delay` after the start, and consecutive fired times are `delay` apart. */
  ghost predicate Spaced(fired: seq<int>, start: int, delay: int)
  {
    (|fired| > 0 ==> fired[0] - start >= delay) &&
    forall k :: 0 < k < |fired| ==> fired[k] - fired[k - 1] >= delay
  }

  /**
   * One more call at `now` fires exactly when the gate allows it, and it then
   * becomes the last fired call; a dropped call changes nothing.
   */
  lemma {:induction false} FiredTimesSnoc(lastCall: int, times: seq<int>, now: int, delay: int)
    ensures FiredTimes(lastCall, times + [now], delay) ==
              FiredTimes(lastCall, times, delay) +
              (if Fires(LastFired(lastCall, times, delay), now, delay) then [now] else [])
    ensures LastFired(lastCall, times + [now], delay) ==
              if Fires(LastFired(lastCall, times, delay), now, delay) then now
              else LastFired(lastCall, times, delay)
    decreases |times|
  {
    if times != [] {
      assert (times + [now])[1..] == times[1..] + [now];
      var next := if Fires(lastCall, times[0], delay) then times[0] else lastCall;
      FiredTimesSnoc(next, times[1..], now, delay);
    }
  }

  /** The last fired time is the gate's timestamp. */
  lemma {:induction false} LastFiredIsLastOfFired(lastCall: int, times: seq<int>, delay: int)
    ensures var fired := FiredTimes(lastCall, times, delay);
            LastFired(lastCall, times, delay) == if fired == [] then lastCall else fired[|fired| - 1]
    decreases |times|
  {
    if times != [] {
      var next := if Fires(lastCall, times[0], delay) then times[0] else lastCall;
      LastFiredIsLastOfFired(next, times[1..], delay);
    }
  }

  /** Invariant: fired calls are at least `delay` apart, and the first is `delay` after the start. */
  lemma {:induction false} FiredAreSpaced(lastCall: int, times: seq<int>, delay: int)
    ensures Spaced(FiredTimes(lastCall, times, delay), lastCall, delay)
    decreases |times|
  {
    if times != [] {
      if Fires(lastCall, times[0], delay) {
        FiredAreSpaced(times[0], times[1..], delay);
      } else {
        FiredAreSpaced(lastCall, times[1..], delay);
      }
    }
  }

  /** Every fired time is the time of a call. */
  lemma {:induction false} FiredAreCalls(lastCall: int, times: seq<int>, delay: int)
    ensures forall t :: t in FiredTimes(lastCall, times, delay) ==> t in times
    ensures |FiredTimes(lastCall, times, delay)| <= |times|
    decreases |times|
  {
    if times != [] {
      var next := if Fires(lastCall, times[0], delay) then times[0] else lastCall;
      FiredAreCalls(next, times[1..], delay);
    }
  }

  /** With a non-negative delay, ANY two fired calls (not only consecutive ones) are `delay` apart. */
  lemma {:induction false} SpacedPairwise(fired: seq<int>, start: int, delay: int, i: nat, j: nat)
    requires Spaced(fired, start, delay) && delay >= 0
    requires i < j < |fired|
    ensures fired[j] - fired[i] >= delay
    decreases j - i
  {
    if i + 1 < j {
      SpacedPairwise(fired, start, delay, i, j - 1);
      assert fired[j] - fired[j - 1] >= delay;
    }
  }

  /** The gate starts at 0, so the first call at any `now >= delay` fires. */
  lemma FirstCallFires(now: int, later: seq<int>, delay: int)
    requires now >= delay
    ensures var fired := FiredTimes(0, [now] + later, delay); |fired| >= 1 && fired[0] == now
  {
  }

  /**
   * Calls at t and t + d with d < delay, then at t + delay: the second is
   * dropped and the third, exactly `delay` after the first, fires.
   */
  lemma DropInsideWindow(t: int, d: int, delay: int)
    requires t >= delay && 0 <= d < delay
    ensures FiredTimes(0, [t, t + d, t + delay], delay) == [t, t + delay]
  {
    assert [t, t + d, t + delay][1..] == [t + d, t + delay];
    assert [t + d, t + delay][1..] == [t + delay];
    assert FiredTimes(t, [t + delay], delay) == [t + delay];
    assert FiredTimes(t, [t + d, t + delay], delay) == [t + delay];
  }

  /**
   * The throttled function returned by `useThrottle(callback, delay)`.
   * `lastCall` is the ref; `invoked` records the callback's invocations
   * (their arguments, in order); the ghost fields record every call's time
   * and the times of the calls that fired.
   */
  class Throttled<A> {
    const delay: int
    var lastCall: int
    var invoked: seq<A>
    ghost var calls: seq<int>
    ghost var firedAt: seq<int>

    ghost predicate Valid()
      reads this
    {
      firedAt == FiredTimes(0, calls, delay) &&
      lastCall == LastFired(0, calls, delay) &&
      |invoked| == |firedAt|
    }

    /** `useRef(0)`: the gate starts at time 0. */
    constructor (delay: int)
      ensures Valid() && this.delay == delay
      ensures lastCall == 0 && invoked == [] && calls == [] && firedAt == []
    {
      this.delay := delay;
      lastCall := 0;
      invoked := [];
      calls := [];
      firedAt := [];
    }

    /** One call of the throttled function at time `now` with arguments `args`. */
    method Call(now: int, args: A) returns (fired: bool)
      requires Valid()
      modifies this
      ensures Valid()
      ensures fired <==> Fires(old(lastCall), now, delay)
      ensures calls == old(calls) + [now]
      ensures fired ==> lastCall == now && invoked == old(invoked) + [args] && firedAt == old(firedAt) + [now]
      ensures !fired ==> lastCall == old(lastCall) && invoked == old(invoked) && firedAt == old(firedAt)
      ensures Spaced(firedAt, 0, delay)
    {
      FiredTimesSnoc(0, calls, now, delay);
      fired := Fires(lastCall, now, delay);
      if fired {
        lastCall := now;
        invoked := invoked + [args];
      }
      calls := calls + [now];
      firedAt := FiredTimes(0, calls, delay);
      FiredAreSpaced(0, calls, delay);
    }
  }
}
