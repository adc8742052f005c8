/** Reconnecting with exponential backoff. Intervals are 64-bit nanoseconds. */
module Backoff {
  import opened Bits

  const MAX_DURATION: int := 0x7fff_ffff_ffff_ffff

  type duration = d: int | -0x8000_0000_0000_0000 <= d <= 0x7fff_ffff_ffff_ffff

  /** Doubling in 64 bits. */
  function Twice(d: duration): duration {
    if 2 * d > MAX_DURATION then 2 * d - 0x1_0000_0000_0000_0000
    else if 2 * d < -0x8000_0000_0000_0000 then 2 * d + 0x1_0000_0000_0000_0000
    else 2 * d
  }

  function Next(d: duration, maxBackoff: duration): duration {
    if Twice(d) > maxBackoff then maxBackoff else Twice(d)
  }

  /** The k-th wait as the loop computes it. */
  function Interval(retryInterval: duration, maxBackoff: duration, k: nat): duration {
    if k == 0 then retryInterval else Next(Interval(retryInterval, maxBackoff, k - 1), maxBackoff)
  }

  /** The k-th wait as it is meant: doubled each time, capped. */
  function Intended(retryInterval: int, maxBackoff: int, k: nat): int {
    var d := retryInterval * Pow2(k);
    if k == 0 || d <= maxBackoff then d else maxBackoff
  }

  lemma {:induction false} WaitLaw(retryInterval: duration, maxBackoff: duration, k: nat)
    requires 0 <= maxBackoff
    requires retryInterval == 0 || (0 < retryInterval < 0x4000_0000_0000_0000 && maxBackoff < 0x4000_0000_0000_0000)
    ensures Interval(retryInterval, maxBackoff, k) == Intended(retryInterval, maxBackoff, k)
  {
    if k > 0 {
      WaitLaw(retryInterval, maxBackoff, k - 1);
      Doubled(retryInterval, k);
    }
  }

  lemma Doubled(d: int, k: nat)
    requires k > 0
    ensures d * Pow2(k) == 2 * (d * Pow2(k - 1))
  {
  }

  /** Wait number k is min(retryInterval * 2^k, maxBackoff) for every k, unless doubling can wrap. */
  lemma WaitsAreIntendedWhen(retryInterval: duration, maxBackoff: duration)
    requires 0 <= retryInterval && 0 <= maxBackoff
    ensures (forall k: nat :: Interval(retryInterval, maxBackoff, k) == Intended(retryInterval, maxBackoff, k))
      <==> retryInterval == 0 || (retryInterval < 0x4000_0000_0000_0000 && maxBackoff < 0x4000_0000_0000_0000)
  {
    if retryInterval == 0 || (retryInterval < 0x4000_0000_0000_0000 && maxBackoff < 0x4000_0000_0000_0000) {
      forall k: nat ensures Interval(retryInterval, maxBackoff, k) == Intended(retryInterval, maxBackoff, k) {
        WaitLaw(retryInterval, maxBackoff, k);
      }
    } else {
      WrapShows(retryInterval, maxBackoff, 0x4000_0000_0000_0000);
    }
  }

  /** Where doubling can wrap, some wait shows it. */
  lemma WrapShows(retryInterval: duration, maxBackoff: duration, n: nat)
    requires 0 < retryInterval && 0 <= maxBackoff && n == 0x4000_0000_0000_0000
    requires retryInterval >= n || maxBackoff >= n
    ensures exists k: nat :: Interval(retryInterval, maxBackoff, k) != Intended(retryInterval, maxBackoff, k)
  {
    if retryInterval >= n {
      Doubled(retryInterval, 1);
      assert Interval(retryInterval, maxBackoff, 1) != Intended(retryInterval, maxBackoff, 1);
    } else if Interval(retryInterval, maxBackoff, n) == Intended(retryInterval, maxBackoff, n) {
      PowerExceeds(n);
      Grows(retryInterval, n);
      Grows(retryInterval, n + 1);
      assert Interval(retryInterval, maxBackoff, n) >= n;
      assert Interval(retryInterval, maxBackoff, n + 1) == Next(Interval(retryInterval, maxBackoff, n), maxBackoff);
      assert Interval(retryInterval, maxBackoff, n + 1) < 0 <= Intended(retryInterval, maxBackoff, n + 1);
    }
  }

  lemma Grows(d: int, k: nat)
    requires d > 0
    ensures d * Pow2(k) >= Pow2(k)
  {
  }

  lemma {:induction false} PowerExceeds(k: nat)
    ensures Pow2(k) > k
  {
    if k > 0 {
      PowerExceeds(k - 1);
    }
  }

  function Sum(waits: seq<int>): int {
    if waits == [] then 0 else Sum(waits[..|waits| - 1]) + waits[|waits| - 1]
  }

  ghost predicate IsBackoff(waits: seq<int>, retryInterval: duration, maxBackoff: duration) {
    forall k :: 0 <= k < |waits| ==> waits[k] == Interval(retryInterval, maxBackoff, k)
  }

  lemma {:induction false} LaterWaits(waits: seq<int>, retryInterval: duration, maxBackoff: duration)
    requires waits != [] && IsBackoff(waits, retryInterval, maxBackoff)
    ensures Sum(waits) <= retryInterval + (|waits| - 1) * maxBackoff
  {
    var n := |waits| - 1;
    if n > 0 {
      LaterWaits(waits[..n], retryInterval, maxBackoff);
      assert waits[n] <= maxBackoff;
    } else {
      assert waits[..0] == [];
    }
  }

  lemma MoreWaits(a: nat, b: nat, d: int)
    requires a <= b && 0 <= d
    ensures a * d <= b * d
  {
  }

  /** The waits of at most `maxRetries` attempts add up to a bounded delay. */
  lemma TotalWait(waits: seq<int>, retryInterval: duration, maxBackoff: duration, maxRetries: int)
    requires 0 <= retryInterval && 0 <= maxBackoff && maxRetries >= 2
    requires IsBackoff(waits, retryInterval, maxBackoff) && |waits| <= maxRetries - 1
    ensures Sum(waits) <= retryInterval + (maxRetries - 2) * maxBackoff
  {
    if waits == [] {
      MoreWaits(0, maxRetries - 2, maxBackoff);
    } else {
      LaterWaits(waits, retryInterval, maxBackoff);
      MoreWaits(|waits| - 1, maxRetries - 2, maxBackoff);
    }
  }

  datatype ReconnectResult = Connected | Cancelled | GaveUp

  class Reconnector {
    var retryInterval: duration
    var maxBackoff: duration
    var maxRetries: int
    var reconnectCount: nat

    /**
     * `connect(k)` is the outcome of attempt k and `cancelled(k)` whether the caller gave up
     * during wait k. The first successful attempt ends the loop, and the last failed one is not
     * followed by a wait.
     */
    method Reconnect(connect: nat -> bool, cancelled: nat -> bool)
      returns (r: ReconnectResult, attempts: nat, waits: seq<int>)
      modifies this`reconnectCount
      ensures attempts <= if maxRetries > 0 then maxRetries else 0
      ensures maxRetries > 0 ==> attempts > 0 && |waits| <= maxRetries - 1
      ensures IsBackoff(waits, retryInterval, maxBackoff)
      ensures forall k: nat :: k < attempts - 1 ==> !connect(k)
      ensures forall k: nat :: k < |waits| - 1 ==> !cancelled(k)
      ensures match r
        case Connected => attempts > 0 && connect(attempts - 1) && |waits| == attempts - 1
                          && forall k: nat :: k < |waits| ==> !cancelled(k)
        case Cancelled => attempts > 0 && !connect(attempts - 1) && |waits| == attempts && cancelled(attempts - 1)
        case GaveUp => (forall k: nat :: k < maxRetries ==> !connect(k)) && (maxRetries > 0 ==> |waits| == maxRetries - 1)
      ensures reconnectCount == old(reconnectCount) + if r.Connected? then 1 else 0
    {
      attempts, waits := 0, [];
      var interval := retryInterval;
      while attempts < maxRetries
        invariant attempts <= if maxRetries > 0 then maxRetries else 0
        invariant forall k: nat :: k < attempts ==> !connect(k)
        invariant forall k: nat :: k < |waits| ==> !cancelled(k)
        invariant |waits| == if attempts < maxRetries || attempts == 0 then attempts else attempts - 1
        invariant interval == Interval(retryInterval, maxBackoff, |waits|)
        invariant IsBackoff(waits, retryInterval, maxBackoff)
        invariant reconnectCount == old(reconnectCount)
      {
        var ok := connect(attempts);
        attempts := attempts + 1;
        if ok {
          reconnectCount := reconnectCount + 1;
          return Connected, attempts, waits;
        }
        if attempts - 1 < maxRetries - 1 {
          waits := waits + [interval];
          if cancelled(attempts - 1) {
            return Cancelled, attempts, waits;
          }
          interval := Twice(interval);
          if interval > maxBackoff {
            interval := maxBackoff;
          }
        }
      }
      r := GaveUp;
    }
  }
}
