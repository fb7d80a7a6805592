/** Fixed-window request limiting per source address, against the log of request times. */
module IpRateLimit {
  import opened Wrappers
  import opened Redis

  function IpKey(ip: string): string { "ratelimit:login:" + ip }

  /** Counting a request at time t. The expiry is set by the first hit of a window and by nothing else. */
  function Hit(window: nat, s: Slot, t: nat): Slot {
    if ValueAt(s, t) == 0 then Slot(1, t + window) else Slot(s.value + 1, s.until)
  }

  class IpLimiter {
    const redis: Store
    const limit: nat
    const window: nat

    constructor (redis: Store, limit: nat, window: nat)
      ensures this.redis == redis && this.limit == limit && this.window == window
    {
      this.redis, this.limit, this.window := redis, limit, window;
    }

    method Check(ip: string) returns (allowed: bool, retryAfter: nat)
      requires Timed(redis.data) && window >= 1
      modifies redis`data
      ensures Timed(redis.data)
      ensures var s := Hit(window, SlotOf(old(redis.data), IpKey(ip)), redis.now);
              && SlotOf(redis.data, IpKey(ip)) == s
              && allowed == (s.value <= limit) && retryAfter == if allowed then 0 else s.until - redis.now
      ensures redis.data - {IpKey(ip)} == old(redis.data) - {IpKey(ip)}
    {
      var count := redis.Incr(IpKey(ip));
      if count == 1 {
        redis.Expire(IpKey(ip), window);
      }
      if count <= limit {
        return true, 0;
      }
      var ttl := redis.Ttl(IpKey(ip));
      return false, if ttl > 1 then ttl else 1;
    }
  }

  // ----- the log of request times of one address -----

  predicate Ordered(times: seq<nat>) {
    forall i, j | 0 <= i < j < |times| :: times[i] <= times[j]
  }

  function LastTime(times: seq<nat>): nat {
    if times == [] then 0 else times[|times| - 1]
  }

  lemma OrderedAppend(times: seq<nat>, t: nat)
    requires Ordered(times) && LastTime(times) <= t
    ensures Ordered(times + [t]) && LastTime(times + [t]) == t
  {}

  function After(window: nat, times: seq<nat>): Slot {
    if times == [] then EMPTY else Hit(window, After(window, times[..|times| - 1]), times[|times| - 1])
  }

  /** The request that opened the window in which the last request of the log falls. */
  function Opener(window: nat, times: seq<nat>): (o: nat)
    requires times != []
    ensures o < |times|
  {
    var n := |times| - 1;
    if n == 0 then 0
    else
      var before := Opener(window, times[..n]);
      if times[n] < times[before] + window then before else n
  }

  function Allowed(limit: nat, window: nat, times: seq<nat>, i: nat): bool
    requires i < |times|
  {
    After(window, times[..i + 1]).value <= limit
  }

  /** The counter is the number of requests since the window's first hit; denied requests count and never extend it. */
  lemma {:induction false} CounterCountsLog(window: nat, times: seq<nat>)
    requires times != [] && window >= 1
    ensures var o := Opener(window, times); After(window, times) == Slot(|times| - o, times[o] + window)
  {
    var n := |times| - 1;
    if n > 0 {
      CounterCountsLog(window, times[..n]);
    } else {
      assert times[..0] == [];
    }
  }

  /** A request is allowed exactly when fewer than limit requests precede it in its window. */
  lemma AllowedMeaning(limit: nat, window: nat, times: seq<nat>, i: nat)
    requires i < |times| && window >= 1
    ensures Allowed(limit, window, times, i) <==> i - Opener(window, times[..i + 1]) < limit
  {
    CounterCountsLog(window, times[..i + 1]);
  }

  function Admitted(limit: nat, window: nat, times: seq<nat>, i: nat, j: nat): nat
    requires i <= j <= |times|
    decreases j
  {
    if i == j then 0
    else Admitted(limit, window, times, i, j - 1) + if Allowed(limit, window, times, j - 1) then 1 else 0
  }

  predicate AllWithin(times: seq<nat>, start: nat, window: nat, i: nat, j: nat) {
    Ordered(times) && i <= j <= |times| && forall k | i <= k < j :: start <= times[k] < start + window
  }

  /** What a window that began before the stretch leaves to it: all but its first request, given two seconds. */
  function Earlier(limit: nat, window: nat): nat {
    if limit >= 1 && window >= 2 then limit - 1 else 0
  }

  function MostAdmitted(limit: nat, window: nat): nat {
    Earlier(limit, window) + limit
  }

  function Min(a: nat, b: nat): nat { if a <= b then a else b }

  /** Progress of the count in a stretch that starts at time start. */
  predicate Tally(limit: nat, window: nat, s: Slot, start: nat, admitted: nat) {
    && (s.value > 0 && s.until < start + window ==>
          admitted <= if s.until <= start then 0 else Min(s.value, limit) - Min(1, limit))
    && (s.value > 0 && s.until >= start + window ==> admitted <= Earlier(limit, window) + Min(s.value, limit))
    && (s.value == 0 ==> admitted == 0)
  }

  lemma TallyStep(limit: nat, window: nat, s: Slot, start: nat, t: nat, admitted: nat)
    requires window >= 1 && start <= t < start + window && Tally(limit, window, s, start, admitted)
    ensures var s' := Hit(window, s, t);
            Tally(limit, window, s', start, admitted + if s'.value <= limit then 1 else 0)
  {}

  lemma {:induction false} TallyRun(limit: nat, window: nat, times: seq<nat>, start: nat, i: nat, j: nat)
    requires window >= 1 && AllWithin(times, start, window, i, j)
    ensures Tally(limit, window, After(window, times[..j]), start, Admitted(limit, window, times, i, j))
    decreases j
  {
    if i == j {
    } else {
      TallyRun(limit, window, times, start, i, j - 1);
      assert times[..j][..j - 1] == times[..j - 1];
      assert times[..(j - 1) + 1] == times[..j];
      TallyStep(limit, window, After(window, times[..j - 1]), start, times[j - 1],
                Admitted(limit, window, times, i, j - 1));
    }
  }

  /**
   No stretch of requests inside one window's length has more admitted than 2 * limit - 1, or than limit
   if the window is a single second; none if the limit is zero.
   */
  lemma AdmittedPerWindow(limit: nat, window: nat, times: seq<nat>, start: nat, i: nat, j: nat)
    requires window >= 1 && AllWithin(times, start, window, i, j)
    ensures Admitted(limit, window, times, i, j) <= MostAdmitted(limit, window)
    ensures MostAdmitted(limit, window) == if limit == 0 then 0 else if window >= 2 then 2 * limit - 1 else limit
  {
    TallyRun(limit, window, times, start, i, j);
  }

  // ----- and that many are possible -----

  /** A log ending in a stretch from i on, with this many admitted and this counter. */
  ghost predicate Stretch(limit: nat, window: nat, times: seq<nat>, start: nat, i: nat, admitted: nat, s: Slot) {
    && AllWithin(times, start, window, i, |times|)
    && Admitted(limit, window, times, i, |times|) == admitted && After(window, times) == s
  }

  lemma {:induction false} AdmittedOfPrefix(limit: nat, window: nat, times: seq<nat>, t: nat, i: nat, j: nat)
    requires i <= j <= |times|
    ensures Admitted(limit, window, times + [t], i, j) == Admitted(limit, window, times, i, j)
    decreases j
  {
    if i == j {
    } else {
      AdmittedOfPrefix(limit, window, times, t, i, j - 1);
      assert (times + [t])[..(j - 1) + 1] == times[..(j - 1) + 1];
    }
  }

  lemma StretchGrows(limit: nat, window: nat, times: seq<nat>, start: nat, i: nat, admitted: nat, s: Slot, t: nat)
    requires Stretch(limit, window, times, start, i, admitted, s)
    requires LastTime(times) <= t && start <= t < start + window && Hit(window, s, t).value <= limit
    ensures Stretch(limit, window, times + [t], start, i, admitted + 1, Hit(window, s, t))
  {
    var more := times + [t];
    AdmittedOfPrefix(limit, window, times, t, i, |times|);
    assert more[..|times|] == times && more[..|times| + 1] == more;
  }

  /** Requests at time t for as long as they are allowed. */
  lemma {:induction false} Exhaust(
      limit: nat, window: nat, times: seq<nat>, start: nat, i: nat, admitted: nat, s: Slot, t: nat)
    returns (more: seq<nat>)
    requires window >= 1 && Stretch(limit, window, times, start, i, admitted, s)
    requires LastTime(times) <= t && start <= t < start + window && ValueAt(s, t) <= limit
    ensures LastTime(more) <= t
    ensures Stretch(limit, window, more, start, i, admitted + (limit - ValueAt(s, t)),
                    if ValueAt(s, t) == limit then s
                    else Slot(limit, if ValueAt(s, t) == 0 then t + window else s.until))
    decreases limit - ValueAt(s, t)
  {
    if ValueAt(s, t) == limit {
      more := times;
    } else {
      StretchGrows(limit, window, times, start, i, admitted, s, t);
      more := Exhaust(limit, window, times + [t], start, i, admitted + 1, Hit(window, s, t), t);
    }
  }

  /** One request before the stretch begins. */
  lemma OneRequest(limit: nat, window: nat)
    requires window >= 2
    ensures Stretch(limit, window, [0], 1, 1, 0, Slot(1, window))
  {
    assert [0][..0] == [];
  }

  /** The bound is attained for every limit and window. */
  lemma BoundAttained(limit: nat, window: nat) returns (times: seq<nat>, start: nat, i: nat)
    requires window >= 1
    ensures AllWithin(times, start, window, i, |times|)
    ensures Admitted(limit, window, times, i, |times|) == MostAdmitted(limit, window)
  {
    if limit == 0 || window == 1 {
      start, i := 0, 0;
      times := Exhaust(limit, window, [], 0, 0, 0, EMPTY, 0);
    } else {
      start, i := 1, 1;
      OneRequest(limit, window);
      times := Exhaust(limit, window, [0], 1, 1, 0, Slot(1, window), 1);
      times := Exhaust(limit, window, times, 1, 1, limit - 1, Slot(limit, window), window);
    }
  }
}
