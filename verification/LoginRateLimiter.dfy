/**
 * Login attempts counted in fixed windows
 * (apps/backend/src/modules/auth/login-rate-limiter.service.ts).
 *
 * A window begins with the first attempt on a key and is over when the counter expires.
 */
module LoginRateLimiter {

  /** A counter and the millisecond after which it is gone. */
  datatype Counter = Counter(count: nat, expiresAt: int)

  datatype LimitResult = LimitResult(allowed: bool, remainingAttempts: nat, retryAfterSeconds: nat)

  /** The counter of a key, as the attempts made on it leave it; `window` is in milliseconds. */
  function After(window: nat, times: seq<int>): Counter
    requires times != []
  {
    var now := times[|times| - 1];
    if |times| == 1 then Counter(1, now + window)
    else
      var before := After(window, times[..|times| - 1]);
      if now > before.expiresAt then Counter(1, now + window) else Counter(before.count + 1, before.expiresAt)
  }

  /**
   * The counter holds the attempts from the current window's first on: that one came after the window before it was over, and
   * no later one came after the current one is.
   */
  lemma {:induction false} CurrentWindow(window: nat, times: seq<int>) returns (first: nat)
    requires times != []
    ensures first < |times| && After(window, times) == Counter(|times| - first, times[first] + window)
    ensures forall i | first < i < |times| :: times[i] <= times[first] + window
    ensures first > 0 ==> times[first] > After(window, times[..first]).expiresAt
  {
    var others := times[..|times| - 1];
    first := |times| - 1;
    if others != [] && times[first] <= After(window, others).expiresAt {
      first := CurrentWindow(window, others);
      assert others[..first] == times[..first];
    }
  }

  ghost predicate Ordered(times: seq<int>) {
    forall i, j | 0 <= i < j < |times| :: times[i] <= times[j]
  }

  class Limiter {
    const maximumAttempts: nat
    const windowSeconds: nat
    const keyOf: (string, string) -> string
    var counters: map<string, Counter>
    /** The attempts on each key since it was last reset. */
    ghost var log: map<string, seq<int>>

    ghost predicate Valid()
      reads this
    {
      && (forall key | key in log :: log[key] != [] && key in counters && counters[key] == After(windowSeconds * 1000, log[key]))
      && (forall key | key in counters :: key in log)
    }

    constructor (maximumAttempts: nat, windowSeconds: nat, keyOf: (string, string) -> string)
      ensures Valid() && log == map[]
      ensures this.maximumAttempts == maximumAttempts && this.windowSeconds == windowSeconds && this.keyOf == keyOf
    {
      this.maximumAttempts, this.windowSeconds, this.keyOf := maximumAttempts, windowSeconds, keyOf;
      counters, log := map[], map[];
    }

    ghost function Log(key: string): seq<int>
      reads this
    {
      if key in log then log[key] else []
    }

    /** The script runs atomically: increment, give a new counter its expiry, read the time to live. */
    method Consume(clientIp: string, email: string, now: int) returns (r: LimitResult)
      requires Valid() && windowSeconds > 0
      modifies this
      ensures Valid()
      ensures var key := keyOf(clientIp, email);
              && log == old(log)[key := old(Log(key)) + [now]]
              && r.allowed == (After(windowSeconds * 1000, log[key]).count <= maximumAttempts)
              && r.remainingAttempts == (if r.allowed then maximumAttempts - After(windowSeconds * 1000, log[key]).count else 0)
              && -500 <= After(windowSeconds * 1000, log[key]).expiresAt - now - r.retryAfterSeconds * 1000 < 500
    {
      var key := keyOf(clientIp, email);
      var live := key in counters && now <= counters[key].expiresAt;
      var count := if live then counters[key].count + 1 else 1;
      var expiresAt := if live then counters[key].expiresAt else now + windowSeconds * 1000;
      ghost var times := Log(key) + [now];
      assert times[..|times| - 1] == Log(key);
      counters := counters[key := Counter(count, expiresAt)];
      log := log[key := times];
      var ttl := (expiresAt - now + 500) / 1000;
      return LimitResult(
        count <= maximumAttempts,
        if maximumAttempts > count then maximumAttempts - count else 0,
        if ttl > 0 then ttl else 0);
    }

    method Reset(clientIp: string, email: string)
      requires Valid()
      modifies this
      ensures Valid() && log == old(log) - {keyOf(clientIp, email)}
    {
      counters := counters - {keyOf(clientIp, email)};
      log := log - {keyOf(clientIp, email)};
    }
  }

  // ---------------------------------------------------------------------------
  // How many attempts an interval lets through
  // ---------------------------------------------------------------------------

  function CountAt(window: nat, times: seq<int>, i: nat): nat
    requires i < |times|
  {
    After(window, times[..i + 1]).count
  }

  /** The attempts among `lo` to `hi` that are let through. */
  function Admitted(window: nat, maximum: nat, times: seq<int>, lo: nat, hi: nat): nat
    requires lo <= hi <= |times|
  {
    if lo == hi then 0
    else Admitted(window, maximum, times, lo, hi - 1) + (if CountAt(window, times, hi - 1) <= maximum then 1 else 0)
  }

  lemma NextCounter(window: nat, times: seq<int>, i: nat)
    requires i + 1 < |times|
    ensures var before, now := After(window, times[..i + 1]), times[i + 1];
            After(window, times[..i + 2]) ==
            if now > before.expiresAt then Counter(1, now + window) else Counter(before.count + 1, before.expiresAt)
  {
    assert times[..i + 2][..i + 1] == times[..i + 1];
  }

  /** Attempts of one window, counted from one on. */
  lemma {:induction false} OneWindow(window: nat, maximum: nat, times: seq<int>, lo: nat, hi: nat)
    requires lo < hi <= |times| && forall i | lo < i < hi :: CountAt(window, times, i) != 1
    ensures CountAt(window, times, hi - 1) == CountAt(window, times, lo) + (hi - 1 - lo)
    ensures Admitted(window, maximum, times, lo, hi) + CountAt(window, times, lo) <= maximum + 1
            || Admitted(window, maximum, times, lo, hi) == 0
    decreases hi
  {
    if lo + 1 < hi {
      OneWindow(window, maximum, times, lo, hi - 1);
      NextCounter(window, times, hi - 2);
      if CountAt(window, times, hi - 1) <= maximum {
        AllAdmitted(window, maximum, times, lo, hi - 1);
      }
    } else {
      assert Admitted(window, maximum, times, lo, lo) == 0;
    }
  }

  lemma {:induction false} AllAdmitted(window: nat, maximum: nat, times: seq<int>, lo: nat, hi: nat)
    requires lo <= hi <= |times|
    ensures Admitted(window, maximum, times, lo, hi) <= hi - lo
  {
    if lo < hi {
      AllAdmitted(window, maximum, times, lo, hi - 1);
    }
  }

  /** A window that starts after another starts more than its length later. */
  lemma {:induction false} StartsApart(window: nat, times: seq<int>, j: nat, k: nat)
    requires Ordered(times) && j < k < |times| && CountAt(window, times, j) == 1
    ensures After(window, times[..k + 1]).expiresAt >= times[j] + window
    ensures CountAt(window, times, k) == 1 ==> times[k] > times[j] + window
    decreases k
  {
    NextCounter(window, times, k - 1);
    if j + 1 < k {
      StartsApart(window, times, j, k - 1);
    }
  }

  /** So two windows never start within one window's length. */
  lemma OneStart(window: nat, times: seq<int>, lo: nat, hi: nat, j: nat, k: nat)
    requires Ordered(times) && lo <= j < k < hi <= |times| && times[hi - 1] <= times[lo] + window
    ensures CountAt(window, times, j) != 1 || CountAt(window, times, k) != 1
  {
    if CountAt(window, times, j) == 1 {
      StartsApart(window, times, j, k);
      assert times[lo] <= times[j] && times[k] <= times[hi - 1];
    }
  }

  lemma {:induction false} AdmittedSplits(window: nat, maximum: nat, times: seq<int>, lo: nat, mid: nat, hi: nat)
    requires lo <= mid <= hi <= |times|
    ensures Admitted(window, maximum, times, lo, hi) ==
            Admitted(window, maximum, times, lo, mid) + Admitted(window, maximum, times, mid, hi)
    decreases hi
  {
    if mid < hi {
      AdmittedSplits(window, maximum, times, lo, mid, hi - 1);
    }
  }

  /**
   * Without resets, the attempts made within any interval as long as the window are let through at most twice the maximum less
   * one time.
   */
  lemma AtMostTwice(window: nat, maximum: nat, times: seq<int>, lo: nat, hi: nat)
    requires Ordered(times) && lo < hi <= |times| && times[hi - 1] <= times[lo] + window && maximum > 0
    ensures Admitted(window, maximum, times, lo, hi) <= 2 * maximum - 1
  {
    if j :| lo < j < hi && CountAt(window, times, j) == 1 {
      forall i | lo <= i < hi && i != j ensures CountAt(window, times, i) != 1 {
        if i < j {
          OneStart(window, times, lo, hi, i, j);
        } else {
          OneStart(window, times, lo, hi, j, i);
        }
      }
      OneWindow(window, maximum, times, lo, j);
      OneWindow(window, maximum, times, j, hi);
      AdmittedSplits(window, maximum, times, lo, j, hi);
    } else {
      OneWindow(window, maximum, times, lo, hi);
    }
  }

  /** One attempt, then the rest of the maximum at the last moment of the window and a whole maximum just after it. */
  function Burst(window: nat, maximum: nat): seq<int>
    requires maximum > 0
  {
    [0] + seq(maximum - 1, _ => window) + seq(maximum, _ => window + 1)
  }

  lemma {:induction false} BurstCounts(window: nat, maximum: nat, i: nat)
    requires maximum > 0 && i < 2 * maximum
    ensures |Burst(window, maximum)| == 2 * maximum
    ensures After(window, Burst(window, maximum)[..i + 1]) ==
            if i < maximum then Counter(i + 1, window) else Counter(i - maximum + 1, 2 * window + 1)
  {
    var times := Burst(window, maximum);
    if i > 0 {
      BurstCounts(window, maximum, i - 1);
      NextCounter(window, times, i - 1);
      assert times[i] == if i < maximum then window else window + 1;
    }
  }

  /** The bound is met: all of these but the first lie within one window's length, and all are let through. */
  lemma BoundIsTight(window: nat, maximum: nat)
    requires maximum > 0 && window > 0
    ensures var times := Burst(window, maximum);
            && Ordered(times) && |times| == 2 * maximum && times[|times| - 1] <= times[1] + window
            && Admitted(window, maximum, times, 1, |times|) == 2 * maximum - 1
  {
    var times := Burst(window, maximum);
    BurstAdmitted(window, maximum, 2 * maximum);
  }

  lemma {:induction false} BurstAdmitted(window: nat, maximum: nat, hi: nat)
    requires maximum > 0 && 1 <= hi <= 2 * maximum
    ensures Admitted(window, maximum, Burst(window, maximum), 1, hi) == hi - 1
  {
    if hi > 1 {
      BurstAdmitted(window, maximum, hi - 1);
      BurstCounts(window, maximum, hi - 1);
    }
  }
}
