/** The limit on console messages sent to the server: a counter that starts again about once a second. */
module RateLimiter {

  const WINDOW: int := 1000  // milliseconds

  datatype View = View(timeStamp: int, counter: int)

  // ----- Specification -----

  predicate Restarts(timeStamp: int, current: int) { timeStamp == 0 || current - timeStamp > WINDOW }

  /** The new state, and whether the message is sent. */
  function Step(maxRate: int, v: View, current: int): (View, bool) {
    if Restarts(v.timeStamp, current) then (View(current, 1), true)
    else (v.(counter := v.counter + 1), v.counter <= maxRate)
  }

  /** The limiter after the first `n` messages, which come at `times`. */
  function After(maxRate: int, times: seq<int>, n: nat): View
    requires n <= |times|
  {
    if n == 0 then View(0, 0) else Step(maxRate, After(maxRate, times, n - 1), times[n - 1]).0
  }

  predicate Sent(maxRate: int, times: seq<int>, i: nat)
    requires i < |times|
  {
    Step(maxRate, After(maxRate, times, i), times[i]).1
  }

  function SentCount(maxRate: int, times: seq<int>, lo: nat, hi: nat): nat
    requires lo <= hi <= |times|
  {
    if lo == hi then 0
    else SentCount(maxRate, times, lo, hi - 1) + (if Sent(maxRate, times, hi - 1) then 1 else 0)
  }

  // ----- The limiter -----

  class Limiter {
    const maxRate: int
    var timeStamp: int
    var counter: int

    function Abs(): View
      reads this
    {
      View(timeStamp, counter)
    }

    constructor (maxRate: int)
      ensures this.maxRate == maxRate && Abs() == View(0, 0)
    {
      this.maxRate, timeStamp, counter := maxRate, 0, 0;
    }

    method OnConsoleText(current: int) returns (send: bool)
      modifies this
      ensures (Abs(), send) == Step(maxRate, old(Abs()), current)
    {
      if timeStamp == 0 || current - timeStamp > WINDOW {
        timeStamp := current;
        counter := 1;
      } else {
        counter := counter + 1;
        if counter - 1 > maxRate { return false; }
      }
      send := true;
    }
  }

  // ----- Windows, defined on the times alone -----

  /** The message that started the window which message `i` falls in; one at time 0 starts none that lasts. */
  function WindowStart(times: seq<int>, i: nat): (w: nat)
    requires i < |times|
    ensures w <= i
  {
    if i == 0 then i
    else
      var before := WindowStart(times, i - 1);
      if times[before] == 0 || times[i] > times[before] + 1000 then i else before
  }

  function Quota(maxRate: int): nat { if maxRate < 0 then 1 else maxRate + 1 }

  lemma {:induction false} StateIsWindow(maxRate: int, times: seq<int>, n: nat)
    requires 0 < n <= |times|
    ensures var w := WindowStart(times, n - 1); After(maxRate, times, n) == View(times[w], n - w)
  {
    if n > 1 { StateIsWindow(maxRate, times, n - 1); }
  }

  /** A message is sent exactly when it is among the first `Quota` messages of its window. */
  lemma SentIffWithinQuota(maxRate: int, times: seq<int>, i: nat)
    requires i < |times|
    ensures Sent(maxRate, times, i) <==> i - WindowStart(times, i) < 1 + (if maxRate > 0 then maxRate else 0)
  {
    if i > 0 { StateIsWindow(maxRate, times, i); }
  }

  lemma {:induction false} SameWindow(times: seq<int>, i: nat, j: nat)
    requires j < |times| && WindowStart(times, j) <= i <= j
    ensures WindowStart(times, i) == WindowStart(times, j)
    decreases j
  {
    if i < j { SameWindow(times, i, j - 1); }
  }

  lemma {:induction false} CountWithinWindow(maxRate: int, times: seq<int>, lo: nat, hi: nat)
    requires lo < hi <= |times| && WindowStart(times, hi - 1) <= lo
    ensures var left := WindowStart(times, hi - 1) + Quota(maxRate) - lo;
      SentCount(maxRate, times, lo, hi) == if left <= 0 then 0 else if hi - lo <= left then hi - lo else left
    decreases hi
  {
    SentIffWithinQuota(maxRate, times, hi - 1);
    if lo < hi - 1 {
      SameWindow(times, hi - 2, hi - 1);
      CountWithinWindow(maxRate, times, lo, hi - 1);
    } else {
      assert SentCount(maxRate, times, lo, lo) == 0;
    }
  }

  lemma {:induction false} CountSplits(maxRate: int, times: seq<int>, lo: nat, mid: nat, hi: nat)
    requires lo <= mid <= hi <= |times|
    ensures SentCount(maxRate, times, lo, hi) == SentCount(maxRate, times, lo, mid) + SentCount(maxRate, times, mid, hi)
    decreases hi
  {
    if mid < hi { CountSplits(maxRate, times, lo, mid, hi - 1); }
  }

  predicate Ordered(times: seq<int>) {
    forall i, j :: 0 <= i <= j < |times| ==> 0 < times[i] <= times[j]
  }

  /**
   In any 1000 milliseconds at most `2 * maxRate + 1` messages are sent: such a stretch meets at most two
   windows, and misses the first message of the earlier one.
   */
  lemma AtMostTwiceTheRate(maxRate: int, times: seq<int>, lo: nat, hi: nat)
    requires Ordered(times)
    requires lo < hi <= |times| && times[hi - 1] - times[lo] <= 1000
    ensures SentCount(maxRate, times, lo, hi) <= 1 + 2 * (if maxRate > 0 then maxRate else 0)
  {
    var later := WindowStart(times, hi - 1);
    if later <= lo {
      CountWithinWindow(maxRate, times, lo, hi);
    } else {
      SameWindow(times, later, hi - 1);
      var earlier := WindowStart(times, later - 1);
      assert times[later] - times[earlier] > WINDOW;
      assert earlier < lo;
      CountSplits(maxRate, times, lo, later, hi);
      CountWithinWindow(maxRate, times, lo, later);
      CountWithinWindow(maxRate, times, later, hi);
    }
  }

  // ----- The bound is reached -----

  /** One message at 1, a burst that fills the window at 1001, and one that fills the next window at 1002. */
  function Burst(quota: nat): (times: seq<int>)
    requires quota > 0
    ensures |times| == 2 * quota && Ordered(times)
  {
    seq(2 * quota, i => if i == 0 then 1 else if i < quota then 1001 else 1002)
  }

  lemma {:induction false} BurstWindows(quota: nat, i: nat)
    requires quota > 0 && i < 2 * quota
    ensures WindowStart(Burst(quota), i) == if i < quota then 0 else quota
  {
    if i > 0 { BurstWindows(quota, i - 1); }
  }

  lemma TwiceTheRateIsReached(maxRate: int)
    ensures var quota := Quota(maxRate);
      var times := Burst(quota);
      && times[|times| - 1] - times[1] <= 1
      && SentCount(maxRate, times, 1, |times|) == 2 * quota - 1
  {
    var quota := Quota(maxRate);
    var times := Burst(quota);
    BurstWindows(quota, 2 * quota - 1);
    CountWithinWindow(maxRate, times, quota, 2 * quota);
    CountSplits(maxRate, times, 1, quota, 2 * quota);
    if quota > 1 {
      BurstWindows(quota, quota - 1);
      CountWithinWindow(maxRate, times, 1, quota);
    }
  }
}
