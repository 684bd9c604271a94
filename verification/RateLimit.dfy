/** The fixed-window rate limiter (server/src/rds.rs, check_rate_limit) for one identity. The counter
    and its expiry are set by one script, so a call is one step. Times are in milliseconds. */
module RateLimit {
  import opened Results

  /** A Redis key: a counter and, if one was set, the time at which Redis forgets it. */
  datatype Key = Key(count: nat, expiry: Option<int>)

  datatype Limiter = Limiter(limit: nat, windowSecs: nat, key: Option<Key>)

  predicate Gone(key: Option<Key>, now: int) {
    key.None? || (key.value.expiry.Some? && key.value.expiry.value <= now)
  }

  /** INCR; EXPIRE when the counter is 1. */
  function Bump(l: Limiter, now: int): Limiter {
    if Gone(l.key, now) then l.(key := Some(Key(1, Some(now + 1000 * l.windowSecs))))
    else l.(key := Some(l.key.value.(count := l.key.value.count + 1)))
  }

  /** The calls of a run, by time. */
  function After(l: Limiter, times: seq<int>, n: nat): Limiter
    requires n <= |times|
  {
    if n == 0 then l else Bump(After(l, times, n - 1), times[n - 1])
  }

  predicate Allowed(l: Limiter, times: seq<int>, i: nat)
    requires i < |times|
  {
    var key := After(l, times, i + 1).key;
    key.Some? && key.value.count <= l.limit
  }

  /** How many of the calls i, ..., j - 1 were allowed. */
  function Count(l: Limiter, times: seq<int>, i: nat, j: nat): nat
    requires i <= j <= |times|
    decreases j
  {
    if i == j then 0 else Count(l, times, i, j - 1) + if Allowed(l, times, j - 1) then 1 else 0
  }

  ghost predicate InOrder(times: seq<int>) { forall i, j :: 0 <= i <= j < |times| ==> times[i] <= times[j] }

  /** Every counter has an expiry: no identity stays limited for ever. */
  lemma {:induction false} ExpirySet(l: Limiter, times: seq<int>, n: nat)
    requires l.key.None? && 0 < n <= |times|
    ensures var key := After(l, times, n).key;
            key.Some? && key.value.expiry.Some? && key.value.count >= 1
    ensures After(l, times, n).(key := None) == l
    decreases n
  {
    if n > 1 {
      ExpirySet(l, times, n - 1);
    }
  }

  function ExpiryAfter(l: Limiter, times: seq<int>, n: nat): int
    requires l.key.None? && 0 < n <= |times|
  {
    ExpirySet(l, times, n);
    After(l, times, n).key.value.expiry.value
  }

  /** Call k opens a window. */
  predicate Opens(l: Limiter, times: seq<int>, k: nat)
    requires k < |times|
  {
    Gone(After(l, times, k).key, times[k])
  }

  /** Within one window the counters are consecutive, so at most `limit` calls are allowed. */
  lemma {:induction false} OneWindow(l: Limiter, times: seq<int>, i: nat, j: nat)
    requires l.key.None? && i < j <= |times|
    requires forall k :: i < k < j ==> !Opens(l, times, k)
    ensures After(l, times, j).key.Some?
    ensures Count(l, times, i, j) <= l.limit && Count(l, times, i, j) <= After(l, times, j).key.value.count
    decreases j
  {
    ExpirySet(l, times, j);
    if j > i + 1 {
      OneWindow(l, times, i, j - 1);
      assert !Opens(l, times, j - 1);
    } else {
      assert Count(l, times, i, i) == 0;
    }
  }

  /** A window opened by call k is still open for every call less than a window later. */
  lemma {:induction false} WindowLasts(l: Limiter, times: seq<int>, k: nat, n: nat)
    requires l.key.None? && InOrder(times) && k < n <= |times| && Opens(l, times, k)
    requires times[n - 1] < times[k] + 1000 * l.windowSecs
    ensures ExpiryAfter(l, times, n) == times[k] + 1000 * l.windowSecs
    ensures n > k + 1 ==> !Opens(l, times, n - 1)
    decreases n
  {
    if k > 0 {
      ExpirySet(l, times, k);
    }
    if n > k + 1 {
      assert times[n - 2] <= times[n - 1];
      WindowLasts(l, times, k, n - 1);
      ExpirySet(l, times, n - 1);
    }
  }

  lemma {:induction false} CountSplits(l: Limiter, times: seq<int>, i: nat, k: nat, j: nat)
    requires i <= k <= j <= |times|
    ensures Count(l, times, i, j) == Count(l, times, i, k) + Count(l, times, k, j)
    decreases j
  {
    if k < j {
      CountSplits(l, times, i, k, j - 1);
    }
  }

  /** In every run, any span of `windowSecs` holds at most twice `limit` allowed calls. */
  lemma TwiceTheLimit(l: Limiter, times: seq<int>, i: nat, j: nat)
    requires l.key.None? && InOrder(times) && i < j <= |times|
    requires times[j - 1] - times[i] < 1000 * l.windowSecs
    ensures Count(l, times, i, j) <= 2 * l.limit
  {
    if forall k :: i < k < j ==> !Opens(l, times, k) {
      OneWindow(l, times, i, j);
    } else {
      var k := FirstOpening(l, times, i, j);
      forall n | k < n < j ensures !Opens(l, times, n) {
        assert times[i] <= times[k] && times[n] <= times[j - 1];
        WindowLasts(l, times, k, n + 1);
      }
      OneWindow(l, times, i, k);
      OneWindow(l, times, k, j);
      CountSplits(l, times, i, k, j);
    }
  }

  lemma {:induction false} FirstOpening(l: Limiter, times: seq<int>, i: nat, j: nat) returns (k: nat)
    requires i < j <= |times| && exists k :: i < k < j && Opens(l, times, k)
    ensures i < k < j && Opens(l, times, k) && forall n :: i < n < k ==> !Opens(l, times, n)
    decreases j
  {
    if exists n :: i < n < j - 1 && Opens(l, times, n) {
      k := FirstOpening(l, times, i, j - 1);
    } else {
      k := j - 1;
    }
  }

  /** Once its window has ended an identity is allowed again. */
  lemma AllowedAfterWindow(l: Limiter, times: seq<int>, n: nat)
    requires l.key.None? && l.limit >= 1 && n < |times|
    requires n == 0 || times[n] >= ExpiryAfter(l, times, n)
    ensures Allowed(l, times, n)
  {
    if n > 0 {
      ExpirySet(l, times, n);
    }
  }

  /** The call that opened the window in which call n falls: itself, if the last window is over. */
  function Opener(windowSecs: nat, times: seq<int>, n: nat): (k: nat)
    requires n < |times|
    ensures k <= n
  {
    if n == 0 then 0 else
    var k := Opener(windowSecs, times, n - 1);
    if times[n] >= times[k] + 1000 * windowSecs then n else k
  }

  lemma {:induction false} CounterIs(l: Limiter, times: seq<int>, n: nat)
    requires l.key.None? && n < |times|
    ensures var k := Opener(l.windowSecs, times, n);
      After(l, times, n + 1) == l.(key := Some(Key(n - k + 1, Some(times[k] + 1000 * l.windowSecs))))
  {
    if n > 0 {
      CounterIs(l, times, n - 1);
    } else {
      assert After(l, times, 0) == l;
    }
  }

  /** A call is allowed if and only if fewer than `limit` calls came before it in its window. */
  lemma AllowedIff(l: Limiter, times: seq<int>, n: nat)
    requires l.key.None? && n < |times|
    ensures Allowed(l, times, n) <==> n - Opener(l.windowSecs, times, n) < l.limit
  {
    CounterIs(l, times, n);
  }
}
