/**
 Failed-login counting and progressive lockout of one identifier, as a function of the history of
 attempts. The repository that keeps it in the store is in LoginAttemptRepository.dfy.
 */
module LoginThrottle {
  import opened Redis

  datatype Policy = Policy(max: nat, window: nat, base: nat, cap: nat)

  predicate PolicyOk(p: Policy) {
    p.max >= 1 && p.window >= 1 && 1 <= p.base <= p.cap
  }

  function Pow2(n: nat): (r: nat)
    ensures r >= 1
  {
    if n == 0 then 1 else 2 * Pow2(n - 1)
  }

  /** The length of the c-th lock of a streak. */
  function Duration(p: Policy, cycle: nat): nat
    requires cycle >= 1
  {
    if p.base * Pow2(cycle - 1) <= p.cap then p.base * Pow2(cycle - 1) else p.cap
  }

  /** The three keys of one identifier: failures, the lock, and how often it was locked lately. */
  datatype Throttle = Throttle(fail: Slot, lock: Slot, count: Slot)

  const FRESH := Throttle(EMPTY, EMPTY, EMPTY)

  datatype Verdict = Blocked(left: nat) | Failed | Locked(cycle: nat, seconds: nat) | Succeeded

  function RecordFailure(p: Policy, th: Throttle, t: nat): (Throttle, Verdict) {
    var n := ValueAt(th.fail, t) + 1;
    if n < p.max then
      (th.(fail := Slot(n, if n == 1 then t + p.window else th.fail.until)), Failed)
    else
      var cycle := ValueAt(th.count, t) + 1;
      var seconds := Duration(p, cycle);
      (Throttle(EMPTY, Slot(1, t + seconds), Slot(cycle, t + p.cap)), Locked(cycle, seconds))
  }

  /** A login attempt that reaches the lock check, with the outcome its credentials would have. */
  datatype Attempt = Attempt(time: nat, valid: bool)

  function Try(p: Policy, th: Throttle, a: Attempt): (Throttle, Verdict) {
    if ValueAt(th.lock, a.time) > 0 then (th, Blocked(th.lock.until - a.time))
    else if a.valid then (th.(fail := EMPTY, lock := EMPTY), Succeeded)
    else RecordFailure(p, th, a.time)
  }

  // ----- histories -----

  function After(p: Policy, h: seq<Attempt>): Throttle {
    if h == [] then FRESH else Try(p, After(p, h[..|h| - 1]), h[|h| - 1]).0
  }

  function VerdictAt(p: Policy, h: seq<Attempt>, i: nat): Verdict
    requires i < |h|
  {
    Try(p, After(p, h[..i]), h[i]).1
  }

  predicate Ordered(h: seq<Attempt>) {
    forall i, j | 0 <= i < j < |h| :: h[i].time <= h[j].time
  }

  function LastTime(h: seq<Attempt>): nat {
    if h == [] then 0 else h[|h| - 1].time
  }

  lemma PrefixVerdict(p: Policy, h: seq<Attempt>, n: nat, i: nat)
    requires i < n <= |h|
    ensures VerdictAt(p, h[..n], i) == VerdictAt(p, h, i)
  {
    assert h[..n][..i] == h[..i];
  }

  lemma AfterNext(p: Policy, h: seq<Attempt>, i: nat)
    requires i < |h|
    ensures After(p, h[..i + 1]) == Try(p, After(p, h[..i]), h[i]).0
  {
    assert h[..i + 1][..i] == h[..i];
  }

  // ----- the state any history can reach -----

  /** The escalation never runs past the first lock that reaches the cap. */
  predicate Bounded(p: Policy, cycle: nat) {
    cycle >= 2 ==> p.base * Pow2(cycle - 2) < p.cap
  }

  /** Either the last lock is still recorded as set, or its time is over. */
  predicate LockServed(p: Policy, th: Throttle, now: nat) {
    th.count.value >= 1 ==>
      && p.cap <= th.count.until <= now + p.cap
      && var over := th.count.until - p.cap + Duration(p, th.count.value);
         th.lock == Slot(1, over) || now >= over
  }

  predicate Reachable(p: Policy, th: Throttle, now: nat) {
    && th.fail.value < p.max
    && (th.fail.value > 0 ==> p.window <= th.fail.until <= now + p.window)
    && Bounded(p, th.count.value)
    && LockServed(p, th, now)
    && (th.count.value == 0 ==> th.lock == EMPTY)
    && th.lock.value <= 1
  }

  lemma CycleStaysBounded(p: Policy, th: Throttle, t: nat)
    requires PolicyOk(p) && Bounded(p, th.count.value) && LockServed(p, th, t)
    requires ValueAt(th.lock, t) == 0
    ensures Bounded(p, ValueAt(th.count, t) + 1)
  {}

  lemma TryKeepsReachable(p: Policy, th: Throttle, last: nat, a: Attempt)
    requires PolicyOk(p) && Reachable(p, th, last) && last <= a.time
    ensures Reachable(p, Try(p, th, a).0, a.time)
  {
    if ValueAt(th.lock, a.time) == 0 {
      CycleStaysBounded(p, th, a.time);
    }
  }

  /** In every reachable state the lock counter c satisfies: c >= 2 implies base * 2^(c-2) < cap. */
  lemma {:induction false} HistoriesReachable(p: Policy, h: seq<Attempt>)
    requires PolicyOk(p) && Ordered(h)
    ensures Reachable(p, After(p, h), LastTime(h))
  {
    if h == [] {
    } else {
      HistoriesReachable(p, h[..|h| - 1]);
      TryKeepsReachable(p, After(p, h[..|h| - 1]), LastTime(h[..|h| - 1]), h[|h| - 1]);
    }
  }

  // ----- locks -----

  /** The lock counter remembers the latest lock. */
  lemma {:induction false} LastLock(p: Policy, h: seq<Attempt>) returns (i: nat)
    requires After(p, h).count.value > 0
    ensures i < |h|
    ensures VerdictAt(p, h, i).Locked? && VerdictAt(p, h, i).cycle == After(p, h).count.value
    ensures After(p, h).count.until == h[i].time + p.cap
    ensures forall k | i < k < |h| :: !VerdictAt(p, h, k).Locked?
  {
    var n := |h| - 1;
    assert h[..n + 1] == h;
    if VerdictAt(p, h, n).Locked? {
      i := n;
    } else {
      i := LastLock(p, h[..n]);
      forall k | 0 <= k < n ensures VerdictAt(p, h[..n], k) == VerdictAt(p, h, k) {
        PrefixVerdict(p, h, n, k);
      }
    }
  }

  lemma {:induction false} NoLockKeepsCount(p: Policy, h: seq<Attempt>, i: nat, j: nat)
    requires i < j <= |h| && VerdictAt(p, h, i).Locked?
    requires forall k | i < k < j :: !VerdictAt(p, h, k).Locked?
    ensures After(p, h[..j]).count == Slot(VerdictAt(p, h, i).cycle, h[i].time + p.cap)
    decreases j
  {
    AfterNext(p, h, j - 1);
    if j > i + 1 {
      assert !VerdictAt(p, h, j - 1).Locked?;
      NoLockKeepsCount(p, h, i, j - 1);
    }
  }

  /**
   Two consecutive locks: the later comes only after the earlier is over, continues its streak within
   the cap and starts a new one beyond it; so a lock of cap length is always followed by one of base length.
   */
  lemma ConsecutiveLocks(p: Policy, h: seq<Attempt>, i: nat, j: nat)
    requires PolicyOk(p) && Ordered(h) && i < j < |h|
    requires VerdictAt(p, h, i).Locked? && VerdictAt(p, h, j).Locked?
    requires forall k | i < k < j :: !VerdictAt(p, h, k).Locked?
    ensures var a, b := VerdictAt(p, h, i), VerdictAt(p, h, j);
            && h[j].time >= h[i].time + a.seconds
            && b.cycle == (if h[j].time < h[i].time + p.cap then a.cycle + 1 else 1)
            && (a.seconds == p.cap ==> b.cycle == 1 && b.seconds == p.base)
  {
    NoLockKeepsCount(p, h, i, j);
    HistoriesReachable(p, h[..j]);
    assert LastTime(h[..j]) <= h[j].time;
  }

  lemma LockDuration(p: Policy, h: seq<Attempt>, i: nat)
    requires i < |h| && VerdictAt(p, h, i).Locked?
    ensures VerdictAt(p, h, i).cycle >= 1 && VerdictAt(p, h, i).seconds == Duration(p, VerdictAt(p, h, i).cycle)
  {}

  lemma DurationDoubles(p: Policy, c: nat)
    requires c >= 1
    ensures Duration(p, c + 1) == if 2 * Duration(p, c) <= p.cap then 2 * Duration(p, c) else p.cap
    ensures PolicyOk(p) ==> Duration(p, 1) == p.base
  {
    var x := p.base * Pow2(c - 1);
    assert p.base * Pow2(c) == 2 * x by {
      var y := Pow2(c - 1);
      assert Pow2(c) == 2 * y;
      assert p.base * (2 * y) == 2 * (p.base * y);
    }
  }

  /** How many locks the attempts from i up to j set. */
  function LocksBetween(p: Policy, h: seq<Attempt>, i: nat, j: nat): nat
    requires i <= j <= |h|
    decreases j
  {
    if i == j then 0 else LocksBetween(p, h, i, j - 1) + if VerdictAt(p, h, j - 1).Locked? then 1 else 0
  }

  lemma {:induction false} NoLocksBetween(p: Policy, h: seq<Attempt>, i: nat, m: nat, j: nat)
    requires i <= m <= j <= |h|
    requires forall k | m <= k < j :: !VerdictAt(p, h, k).Locked?
    ensures LocksBetween(p, h, i, j) == LocksBetween(p, h, i, m)
    decreases j
  {
    if m == j {
    } else {
      NoLocksBetween(p, h, i, m, j - 1);
    }
  }

  lemma PreviousLock(p: Policy, h: seq<Attempt>, j: nat) returns (i: nat)
    requires PolicyOk(p) && Ordered(h) && j < |h|
    requires VerdictAt(p, h, j).Locked? && VerdictAt(p, h, j).cycle != 1
    ensures i < j && VerdictAt(p, h, i).Locked? && VerdictAt(p, h, i).cycle == VerdictAt(p, h, j).cycle - 1
    ensures forall k | i < k < j :: !VerdictAt(p, h, k).Locked?
  {
    i := LastLock(p, h[..j]);
    forall k | 0 <= k < j ensures VerdictAt(p, h[..j], k) == VerdictAt(p, h, k) {
      PrefixVerdict(p, h, j, k);
    }
  }

  /** The locks before the k-th of a streak, end to end. */
  function Backoff(p: Policy, k: nat): nat {
    if k <= 1 then 0 else Backoff(p, k - 1) + p.base * Pow2(k - 2)
  }

  lemma {:induction false} BackoffClosed(p: Policy, k: nat)
    requires k >= 1
    ensures Backoff(p, k) == p.base * (Pow2(k - 1) - 1)
  {
    if k <= 1 {
    } else {
      BackoffClosed(p, k - 1);
      var x := Pow2(k - 2);
      assert p.base * (x - 1) + p.base * x == p.base * (2 * x - 1);
    }
  }

  lemma BackoffStep(p: Policy, k: nat)
    requires k >= 1
    ensures Backoff(p, k + 1) == Backoff(p, k) + p.base * Pow2(k - 1)
  {}

  /** A lock that continues a streak comes a full, uncapped duration after the one before it. */
  lemma StreakStep(p: Policy, h: seq<Attempt>, i: nat, j: nat)
    requires PolicyOk(p) && Ordered(h) && i < j < |h|
    requires VerdictAt(p, h, i).Locked? && VerdictAt(p, h, j).Locked? && VerdictAt(p, h, j).cycle != 1
    requires VerdictAt(p, h, i).cycle >= 1 && VerdictAt(p, h, i).seconds == Duration(p, VerdictAt(p, h, i).cycle)
    requires forall k | i < k < j :: !VerdictAt(p, h, k).Locked?
    ensures h[j].time >= h[i].time + p.base * Pow2(VerdictAt(p, h, i).cycle - 1)
  {
    ConsecutiveLocks(p, h, i, j);
  }

  /** So far the streak's locks are counted by the lock's cycle and spread over its backoff. */
  predicate Streak(p: Policy, h: seq<Attempt>, first: nat, j: nat, cycle: nat) {
    && first <= j < |h| && VerdictAt(p, h, first).Locked? && VerdictAt(p, h, first).cycle == 1
    && LocksBetween(p, h, first, j + 1) == cycle && h[j].time >= h[first].time + Backoff(p, cycle)
  }

  lemma StreakExtend(p: Policy, h: seq<Attempt>, first: nat, i: nat, j: nat, cycle: nat)
    requires Streak(p, h, first, i, cycle) && cycle >= 1 && i < j < |h| && VerdictAt(p, h, j).Locked?
    requires forall k | i < k < j :: !VerdictAt(p, h, k).Locked?
    requires h[j].time >= h[i].time + p.base * Pow2(cycle - 1)
    ensures Streak(p, h, first, j, cycle + 1)
  {
    NoLocksBetween(p, h, first, i + 1, j);
    BackoffStep(p, cycle);
  }

  lemma StreakStart(p: Policy, h: seq<Attempt>, j: nat)
    requires j < |h| && VerdictAt(p, h, j).Locked? && VerdictAt(p, h, j).cycle == 1
    ensures Streak(p, h, j, j, 1)
  {
    assert LocksBetween(p, h, j, j) == 0;
  }

  lemma {:induction false} StreakSum(p: Policy, h: seq<Attempt>, j: nat) returns (first: nat)
    requires PolicyOk(p) && Ordered(h) && j < |h| && VerdictAt(p, h, j).Locked?
    ensures Streak(p, h, first, j, VerdictAt(p, h, j).cycle)
    decreases j
  {
    if VerdictAt(p, h, j).cycle == 1 {
      first := j;
      StreakStart(p, h, j);
    } else {
      var i := PreviousLock(p, h, j);
      LockDuration(p, h, i);
      StreakStep(p, h, i, j);
      first := StreakSum(p, h, i);
      StreakExtend(p, h, first, i, j, VerdictAt(p, h, i).cycle);
    }
  }

  /**
   The k-th lock of a streak is the k-th lock since a first one with cycle 1, and comes at least
   base * (2^(k-1) - 1) seconds after it.
   */
  lemma StreakBackoff(p: Policy, h: seq<Attempt>, j: nat) returns (first: nat)
    requires PolicyOk(p) && Ordered(h) && j < |h| && VerdictAt(p, h, j).Locked?
    ensures first <= j && VerdictAt(p, h, first).Locked? && VerdictAt(p, h, first).cycle == 1
    ensures LocksBetween(p, h, first, j + 1) == VerdictAt(p, h, j).cycle
    ensures h[j].time >= h[first].time + p.base * (Pow2(VerdictAt(p, h, j).cycle - 1) - 1)
  {
    first := StreakSum(p, h, j);
    BackoffClosed(p, VerdictAt(p, h, j).cycle);
  }

  // ----- how long a lock lasts -----

  /**
   The first lock of a streak lasts base. A lock within cap of the one before it lasts twice as long, up to
   cap; a later one starts over.
   */
  lemma LockLength(p: Policy, h: seq<Attempt>, i: nat, j: nat)
    requires PolicyOk(p) && Ordered(h) && i < j < |h|
    requires VerdictAt(p, h, i).Locked? && VerdictAt(p, h, j).Locked?
    requires forall k | i < k < j :: !VerdictAt(p, h, k).Locked?
    ensures var a, b := VerdictAt(p, h, i).seconds, VerdictAt(p, h, j).seconds;
            b == (if h[j].time >= h[i].time + p.cap then p.base else if 2 * a <= p.cap then 2 * a else p.cap)
  {
    ConsecutiveLocks(p, h, i, j);
    LockDuration(p, h, i);
    LockDuration(p, h, j);
    DurationDoubles(p, VerdictAt(p, h, i).cycle);
  }

  lemma FirstLockLength(p: Policy, h: seq<Attempt>, j: nat)
    requires PolicyOk(p) && Ordered(h) && j < |h| && VerdictAt(p, h, j).Locked?
    requires forall k | 0 <= k < j :: !VerdictAt(p, h, k).Locked?
    ensures VerdictAt(p, h, j).seconds == p.base
  {
    LockDuration(p, h, j);
    if VerdictAt(p, h, j).cycle != 1 {
      var i := PreviousLock(p, h, j);
      assert false;
    }
  }

  /** The k-th lock of a streak, counted from its first, lasts min(base * 2^(k-1), cap). */
  lemma StreakLockLength(p: Policy, h: seq<Attempt>, j: nat) returns (first: nat)
    requires PolicyOk(p) && Ordered(h) && j < |h| && VerdictAt(p, h, j).Locked?
    ensures first <= j && VerdictAt(p, h, first).Locked? && VerdictAt(p, h, first).seconds == p.base
    ensures var k := LocksBetween(p, h, first, j + 1);
            && k >= 1
            && VerdictAt(p, h, j).seconds == if p.base * Pow2(k - 1) <= p.cap then p.base * Pow2(k - 1) else p.cap
  {
    first := StreakBackoff(p, h, j);
    LockDuration(p, h, j);
    LockDuration(p, h, first);
  }

  /** What the lock key can hold: the latest lock, for exactly its length, unless a success has removed it. */
  lemma {:induction false} LockSlotIs(p: Policy, h: seq<Attempt>, i: nat, j: nat)
    requires i < j <= |h| && VerdictAt(p, h, i).Locked?
    requires forall k | i < k < j :: !VerdictAt(p, h, k).Locked?
    ensures After(p, h[..j]).lock in {EMPTY, Slot(1, h[i].time + VerdictAt(p, h, i).seconds)}
    decreases j
  {
    AfterNext(p, h, j - 1);
    if j == i + 1 {
    } else {
      assert !VerdictAt(p, h, j - 1).Locked?;
      LockSlotIs(p, h, i, j - 1);
    }
  }

  /**
   A lock holds for its length to the second, whatever is tried meanwhile, and the wait answered is what is left
   of it.
   */
  lemma BlockedExactly(p: Policy, h: seq<Attempt>, i: nat, j: nat)
    requires PolicyOk(p) && Ordered(h) && i < j < |h| && VerdictAt(p, h, i).Locked?
    requires forall k | i < k < j :: !VerdictAt(p, h, k).Locked?
    ensures var over := h[i].time + VerdictAt(p, h, i).seconds;
            && (VerdictAt(p, h, j).Blocked? <==> h[j].time < over)
            && (VerdictAt(p, h, j).Blocked? ==> VerdictAt(p, h, j).left == over - h[j].time)
            && (VerdictAt(p, h, j).Succeeded? <==> h[j].valid && h[j].time >= over)
  {
    LockSlotIs(p, h, i, j);
    NoLockKeepsCount(p, h, i, j);
    LockDuration(p, h, i);
    HistoriesReachable(p, h[..j]);
    assert LastTime(h[..j]) <= h[j].time;
  }

  /**
   A success clears failures and lock, and a failure that locks clears the failures; the streak is remembered
   through both.
   */
  lemma ClearedExactly(p: Policy, h: seq<Attempt>, j: nat)
    requires PolicyOk(p) && j < |h|
    ensures var was, now := After(p, h[..j]), After(p, h[..j + 1]);
            && (VerdictAt(p, h, j).Succeeded? ==> now.fail == EMPTY && now.lock == EMPTY && now.count == was.count)
            && (VerdictAt(p, h, j).Locked? ==>
                  now.fail == EMPTY && now.lock.until == h[j].time + VerdictAt(p, h, j).seconds)
            && (VerdictAt(p, h, j).Failed? ==> now.lock == was.lock && now.count == was.count)
            && (VerdictAt(p, h, j).Blocked? ==> now == was)
  {
    AfterNext(p, h, j);
  }

  /** Nobody is blocked before the first lock. */
  lemma {:induction false} NeverLocked(p: Policy, h: seq<Attempt>, j: nat)
    requires j < |h| && forall k | 0 <= k < j :: !VerdictAt(p, h, k).Locked?
    ensures !VerdictAt(p, h, j).Blocked? && (VerdictAt(p, h, j).Succeeded? <==> h[j].valid)
    ensures After(p, h[..j]).lock == EMPTY
    decreases j
  {
    if j == 0 {
      assert h[..0] == [];
    } else {
      NeverLocked(p, h, j - 1);
      AfterNext(p, h, j - 1);
      assert !VerdictAt(p, h, j - 1).Locked?;
    }
  }

  // ----- the failure counter is a function of the history -----

  /** What opened the current window: the first failure since a success, a lock, or the last window's end. */
  function Opener(p: Policy, h: seq<Attempt>): int {
    if h == [] then -1
    else
      var n := |h| - 1;
      var before := Opener(p, h[..n]);
      match VerdictAt(p, h, n)
      case Blocked(_) => before
      case Failed => if 0 <= before < n && h[n].time < h[before].time + p.window then before else n
      case _ => -1
  }

  function FailuresFrom(p: Policy, h: seq<Attempt>, i: nat, j: nat): nat
    requires i <= j <= |h|
    decreases j
  {
    if i == j then 0 else FailuresFrom(p, h, i, j - 1) + if VerdictAt(p, h, j - 1).Failed? then 1 else 0
  }

  function SuccessesFrom(p: Policy, h: seq<Attempt>, i: nat, j: nat): nat
    requires i <= j <= |h|
    decreases j
  {
    if i == j then 0 else SuccessesFrom(p, h, i, j - 1) + if VerdictAt(p, h, j - 1).Succeeded? then 1 else 0
  }

  lemma {:induction false} FailuresOfPrefix(p: Policy, h: seq<Attempt>, i: nat, j: nat, n: nat)
    requires i <= j <= n <= |h|
    ensures FailuresFrom(p, h[..n], i, j) == FailuresFrom(p, h, i, j)
    decreases j
  {
    if i == j {
    } else {
      FailuresOfPrefix(p, h, i, j - 1, n);
      PrefixVerdict(p, h, n, j - 1);
    }
  }

  /** What one attempt does to the failure counter, by its verdict. */
  lemma CounterStep(p: Policy, th: Throttle, a: Attempt)
    requires PolicyOk(p)
    ensures var (th', v) := Try(p, th, a);
            match v
            case Blocked(_) => th'.fail == th.fail
            case Failed =>
              th'.fail == if ValueAt(th.fail, a.time) > 0 then Slot(th.fail.value + 1, th.fail.until)
                          else Slot(1, a.time + p.window)
            case _ => th'.fail == EMPTY
  {}

  /** The opener moves with the verdict, and the failures since it are counted up. */
  lemma OpenerStep(p: Policy, h: seq<Attempt>)
    requires h != []
    ensures var n := |h| - 1;
            var before := Opener(p, h[..n]);
            && Opener(p, h) == (match VerdictAt(p, h, n)
                                case Blocked(_) => before
                                case Failed =>
                                  if 0 <= before < n && h[n].time < h[before].time + p.window then before else n
                                case _ => -1)
            && (VerdictAt(p, h, n).Failed? ==> FailuresFrom(p, h, n, n + 1) == 1)
            && (0 <= before < n ==>
                  FailuresFrom(p, h, before, n + 1)
                  == FailuresFrom(p, h[..n], before, n) + if VerdictAt(p, h, n).Failed? then 1 else 0)
  {
    var n := |h| - 1;
    var before := Opener(p, h[..n]);
    assert FailuresFrom(p, h, n, n) == 0;
    if 0 <= before < n {
      FailuresOfPrefix(p, h, before, n, n);
    }
  }

  /** The stored counter is the number of failures since the window's opener, and expires a window after it. */
  lemma {:induction false} CounterCountsHistory(p: Policy, h: seq<Attempt>)
    requires PolicyOk(p)
    ensures var o, fail := Opener(p, h), After(p, h).fail;
            && -1 <= o < |h|
            && (o == -1 ==> fail == EMPTY)
            && (o >= 0 ==> fail == Slot(FailuresFrom(p, h, o, |h|), h[o].time + p.window) && fail.value >= 1)
  {
    if h == [] {
    } else {
      var n := |h| - 1;
      CounterCountsHistory(p, h[..n]);
      CounterStep(p, After(p, h[..n]), h[n]);
      OpenerStep(p, h);
    }
  }

  /** An invalid attempt that is not blocked locks exactly when it is the max-th failure of its window. */
  lemma LocksAtTheLimit(p: Policy, h: seq<Attempt>, i: nat)
    requires PolicyOk(p) && Ordered(h) && i < |h|
    requires !h[i].valid && !VerdictAt(p, h, i).Blocked?
    ensures var o := Opener(p, h[..i]);
            var earlier := if 0 <= o < i && h[i].time < h[o].time + p.window then FailuresFrom(p, h, o, i) else 0;
            && earlier + 1 <= p.max
            && (VerdictAt(p, h, i).Locked? <==> earlier + 1 == p.max)
  {
    CounterCountsHistory(p, h[..i]);
    HistoriesReachable(p, h[..i]);
    var o := Opener(p, h[..i]);
    if o >= 0 {
      FailuresOfPrefix(p, h, o, i, i);
    }
  }

  // ----- how many guesses a window of time admits -----

  /** The failures that n windows hold without a lock. */
  function Budget(p: Policy, n: nat): nat
    requires p.max >= 1
  {
    if n == 0 then 0 else Budget(p, n - 1) + (p.max - 1)
  }

  lemma {:induction false} BudgetIsProduct(p: Policy, n: nat)
    requires p.max >= 1
    ensures Budget(p, n) == n * (p.max - 1)
  {
    if n == 0 {
    } else {
      BudgetIsProduct(p, n - 1);
      assert n * (p.max - 1) == (n - 1) * (p.max - 1) + (p.max - 1);
    }
  }

  /** The attempts from i up to j fall inside one window's length and see no lock. */
  predicate LockFree(p: Policy, h: seq<Attempt>, start: nat, i: nat, j: nat) {
    && Ordered(h) && i <= j <= |h|
    && forall k | i <= k < j :: start <= h[k].time < start + p.window && !VerdictAt(p, h, k).Locked?
  }

  /**
   The most that s successes leave to earlier failures, besides those the counter shows: a window that
   began before the stretch, which takes a window of two seconds at least, and one budget per success.
   */
  function Earlier(p: Policy, s: nat): nat
    requires PolicyOk(p)
  {
    if p.max == 1 then 0 else if p.window >= 2 then Budget(p, s + 1) - 1 else Budget(p, s)
  }

  /** The most failures a lock-free stretch with s successes can hold. */
  function MostFailures(p: Policy, s: nat): nat
    requires PolicyOk(p)
  {
    Earlier(p, s) + (p.max - 1)
  }

  lemma MostFailuresIs(p: Policy, s: nat)
    requires PolicyOk(p)
    ensures MostFailures(p, s) ==
            if p.max == 1 then 0
            else if p.window >= 2 then (s + 2) * (p.max - 1) - 1
            else (s + 1) * (p.max - 1)
  {
    BudgetIsProduct(p, s + 2);
    BudgetIsProduct(p, s + 1);
    assert Budget(p, s + 2) == Budget(p, s + 1) + (p.max - 1);
    assert Budget(p, s + 1) == Budget(p, s) + (p.max - 1);
  }

  /** Progress of the count in a stretch that starts at time start and sees no lock. */
  predicate Tally(p: Policy, fail: Slot, start: nat, failures: nat, successes: nat)
    requires PolicyOk(p)
  {
    && (fail.value > 0 && fail.until < start + p.window ==>
          successes == 0 && failures <= if fail.until <= start then 0 else fail.value - 1)
    && (fail.value > 0 && fail.until >= start + p.window ==> failures <= Earlier(p, successes) + fail.value)
    && (fail.value == 0 ==> failures <= Earlier(p, successes))
  }

  lemma EarlierGrows(p: Policy, s: nat)
    requires PolicyOk(p)
    ensures Earlier(p, s + 1) == Earlier(p, s) + (p.max - 1)
    ensures p.window >= 2 ==> Earlier(p, s) >= p.max - 2
  {
    assert Budget(p, s + 2) == Budget(p, s + 1) + (p.max - 1);
    assert Budget(p, s + 1) == Budget(p, s) + (p.max - 1);
  }

  lemma TallyStep(p: Policy, th: Throttle, a: Attempt, start: nat, failures: nat, successes: nat)
    requires PolicyOk(p) && th.fail.value < p.max && Tally(p, th.fail, start, failures, successes)
    requires start <= a.time < start + p.window
    requires !Try(p, th, a).1.Locked?
    ensures var (th', v) := Try(p, th, a);
            Tally(p, th'.fail, start,
                  failures + (if v.Failed? then 1 else 0), successes + if v.Succeeded? then 1 else 0)
  {
    EarlierGrows(p, successes);
  }

  lemma FailBelowMax(p: Policy, h: seq<Attempt>)
    requires PolicyOk(p) && Ordered(h)
    ensures After(p, h).fail.value < p.max
  {
    HistoriesReachable(p, h);
  }

  lemma TallyNext(p: Policy, h: seq<Attempt>, start: nat, i: nat, j: nat)
    requires PolicyOk(p) && Ordered(h) && i <= j < |h|
    requires start <= h[j].time < start + p.window && !VerdictAt(p, h, j).Locked?
    requires Tally(p, After(p, h[..j]).fail, start, FailuresFrom(p, h, i, j), SuccessesFrom(p, h, i, j))
    ensures Tally(p, After(p, h[..j + 1]).fail, start, FailuresFrom(p, h, i, j + 1), SuccessesFrom(p, h, i, j + 1))
  {
    FailBelowMax(p, h[..j]);
    AfterNext(p, h, j);
    TallyStep(p, After(p, h[..j]), h[j], start, FailuresFrom(p, h, i, j), SuccessesFrom(p, h, i, j));
  }

  lemma {:induction false} TallyRun(p: Policy, h: seq<Attempt>, start: nat, i: nat, j: nat)
    requires PolicyOk(p) && LockFree(p, h, start, i, j)
    ensures Tally(p, After(p, h[..j]).fail, start, FailuresFrom(p, h, i, j), SuccessesFrom(p, h, i, j))
    decreases j
  {
    if i == j {
    } else {
      TallyRun(p, h, start, i, j - 1);
      assert !VerdictAt(p, h, j - 1).Locked?;
      TallyNext(p, h, start, i, j - 1);
    }
  }

  /** A stretch inside one window's length that sees no lock holds no more failures than MostFailures. */
  lemma FailuresPerWindow(p: Policy, h: seq<Attempt>, start: nat, i: nat, j: nat)
    requires PolicyOk(p) && LockFree(p, h, start, i, j)
    ensures FailuresFrom(p, h, i, j) <= MostFailures(p, SuccessesFrom(p, h, i, j))
  {
    TallyRun(p, h, start, i, j);
    FailBelowMax(p, h[..j]);
    EarlierGrows(p, SuccessesFrom(p, h, i, j));
  }

  // ----- and that many are possible -----

  /** A history that ends in a lock-free stretch from i on, with these counts and this failure counter. */
  ghost predicate Stretch(p: Policy, h: seq<Attempt>, start: nat, i: nat, failures: nat, successes: nat, fail: Slot) {
    && LockFree(p, h, start, i, |h|)
    && FailuresFrom(p, h, i, |h|) == failures && SuccessesFrom(p, h, i, |h|) == successes
    && After(p, h) == FRESH.(fail := fail)
  }

  lemma {:induction false} CountsOfPrefix(p: Policy, h: seq<Attempt>, a: Attempt, i: nat, j: nat)
    requires i <= j <= |h|
    ensures FailuresFrom(p, h + [a], i, j) == FailuresFrom(p, h, i, j)
    ensures SuccessesFrom(p, h + [a], i, j) == SuccessesFrom(p, h, i, j)
    decreases j
  {
    if i == j {
    } else {
      CountsOfPrefix(p, h, a, i, j - 1);
      assert (h + [a])[..j - 1] == h[..j - 1];
    }
  }

  lemma AfterAppend(p: Policy, h: seq<Attempt>, a: Attempt)
    ensures After(p, h + [a]) == Try(p, After(p, h), a).0 && VerdictAt(p, h + [a], |h|) == Try(p, After(p, h), a).1
  {
    assert (h + [a])[..|h|] == h;
  }

  lemma LockFreeGrows(p: Policy, h: seq<Attempt>, start: nat, i: nat, a: Attempt)
    requires LockFree(p, h, start, i, |h|) && start <= a.time < start + p.window && LastTime(h) <= a.time
    requires !VerdictAt(p, h + [a], |h|).Locked?
    ensures LockFree(p, h + [a], start, i, |h| + 1)
  {
    var g := h + [a];
    forall k | i <= k < |g| ensures start <= g[k].time < start + p.window && !VerdictAt(p, g, k).Locked? {
      if k < |h| {
        assert g[..k] == h[..k];
        assert !VerdictAt(p, h, k).Locked?;
      }
    }
  }

  lemma StretchGrows(
      p: Policy, h: seq<Attempt>, start: nat, i: nat, failures: nat, successes: nat, fail: Slot, a: Attempt)
    requires PolicyOk(p) && Stretch(p, h, start, i, failures, successes, fail)
    requires start <= a.time < start + p.window && LastTime(h) <= a.time
    requires a.valid || ValueAt(fail, a.time) + 1 < p.max
    ensures var n := ValueAt(fail, a.time) + 1;
            if a.valid then Stretch(p, h + [a], start, i, failures, successes + 1, EMPTY)
            else Stretch(p, h + [a], start, i, failures + 1, successes,
                         Slot(n, if n == 1 then a.time + p.window else fail.until))
  {
    AfterAppend(p, h, a);
    CountsOfPrefix(p, h, a, i, |h|);
    LockFreeGrows(p, h, start, i, a);
  }

  /** Guessing wrong at time t for as long as no lock follows. */
  lemma {:induction false} Exhaust(
      p: Policy, h: seq<Attempt>, start: nat, i: nat, failures: nat, successes: nat, fail: Slot, t: nat)
    returns (g: seq<Attempt>)
    requires PolicyOk(p) && Stretch(p, h, start, i, failures, successes, fail)
    requires start <= t < start + p.window && LastTime(h) <= t && ValueAt(fail, t) < p.max
    requires ValueAt(fail, t) > 0 ==> fail.until > t
    ensures var left := p.max - 1 - ValueAt(fail, t);
            && LastTime(g) <= t
            && Stretch(p, g, start, i, failures + left, successes,
                       if left == 0 then fail
                       else Slot(p.max - 1, if ValueAt(fail, t) == 0 then t + p.window else fail.until))
    decreases p.max - ValueAt(fail, t)
  {
    if ValueAt(fail, t) == p.max - 1 {
      g := h;
    } else {
      var n := ValueAt(fail, t) + 1;
      var next := Slot(n, if n == 1 then t + p.window else fail.until);
      StretchGrows(p, h, start, i, failures, successes, fail, Attempt(t, false));
      g := Exhaust(p, h + [Attempt(t, false)], start, i, failures + 1, successes, next, t);
    }
  }

  /** One budget of failures, then a success and a budget again, s times, all within the second t. */
  lemma {:induction false} Rounds(
      p: Policy, h: seq<Attempt>, start: nat, i: nat, failures: nat, fail: Slot, t: nat, s: nat)
    returns (g: seq<Attempt>, last: Slot)
    requires PolicyOk(p) && Stretch(p, h, start, i, failures, 0, fail)
    requires start <= t < start + p.window && LastTime(h) <= t && ValueAt(fail, t) == 0
    ensures LastTime(g) <= t && Stretch(p, g, start, i, failures + Budget(p, s + 1), s, last)
  {
    if s == 0 {
      g := Exhaust(p, h, start, i, failures, 0, fail, t);
      last := if p.max == 1 then fail else Slot(p.max - 1, t + p.window);
      assert Budget(p, 1) == p.max - 1;
    } else {
      var before, slot := Rounds(p, h, start, i, failures, fail, t, s - 1);
      StretchGrows(p, before, start, i, failures + Budget(p, s), s - 1, slot, Attempt(t, true));
      g := Exhaust(p, before + [Attempt(t, true)], start, i, failures + Budget(p, s), s, EMPTY, t);
      last := if p.max == 1 then EMPTY else Slot(p.max - 1, t + p.window);
    }
  }

  lemma NothingYet(p: Policy)
    ensures Stretch(p, [], 0, 0, 0, 0, EMPTY)
  {}

  /** Everything in one second: s successes leave room for s + 1 budgets. */
  lemma WithinOneSecond(p: Policy, s: nat) returns (h: seq<Attempt>, last: Slot)
    requires PolicyOk(p)
    ensures Stretch(p, h, 0, 0, Budget(p, s + 1), s, last)
  {
    NothingYet(p);
    h, last := Rounds(p, [], 0, 0, 0, EMPTY, 0, s);
  }

  lemma OneFailure(p: Policy)
    requires PolicyOk(p) && p.max >= 2 && p.window >= 2
    ensures Stretch(p, [Attempt(0, false)], 1, 1, 0, 0, Slot(1, p.window))
  {
    var opener := Attempt(0, false);
    NothingYet(p);
    StretchGrows(p, [], 0, 0, 0, 0, EMPTY, opener);
    assert [] + [opener] == [opener];
    assert FailuresFrom(p, [opener], 1, 1) == 0 && SuccessesFrom(p, [opener], 1, 1) == 0;
  }

  /** A stretch that begins one second into a window still has all but one of that window's failures to come. */
  lemma AcrossTwoWindows(p: Policy, s: nat) returns (h: seq<Attempt>, last: Slot)
    requires PolicyOk(p) && p.max >= 2 && p.window >= 2
    ensures Stretch(p, h, 1, 1, p.max - 2 + Budget(p, s + 1), s, last)
  {
    OneFailure(p);
    var fail := Slot(1, p.window);
    var spent := Exhaust(p, [Attempt(0, false)], 1, 1, 0, 0, fail, 1);
    h, last := Rounds(p, spent, 1, 1, p.max - 2, Slot(p.max - 1, p.window), p.window, s);
  }

  /** The bound is attained under every policy and for every number of successes. */
  lemma BoundAttained(p: Policy, s: nat) returns (h: seq<Attempt>, start: nat, i: nat)
    requires PolicyOk(p)
    ensures LockFree(p, h, start, i, |h|)
    ensures SuccessesFrom(p, h, i, |h|) == s && FailuresFrom(p, h, i, |h|) == MostFailures(p, s)
  {
    var last;
    EarlierGrows(p, s);
    if p.max == 1 || p.window == 1 {
      start, i := 0, 0;
      h, last := WithinOneSecond(p, s);
      BudgetIsProduct(p, s + 1);
    } else {
      start, i := 1, 1;
      h, last := AcrossTwoWindows(p, s);
    }
  }

  /**
   The limit of max failures per window is one of 2 * (max - 1) per window's length exactly while
   successes stay few: each success clears the counter and reopens the budget.
   */
  lemma SuccessesReopenTheBudget(p: Policy, s: nat)
    requires PolicyOk(p)
    ensures (forall h, start, i, j | LockFree(p, h, start, i, j) && SuccessesFrom(p, h, i, j) == s ::
               FailuresFrom(p, h, i, j) <= 2 * (p.max - 1))
            <==> (if p.window == 1 then s <= 1 || p.max == 1 else s * (p.max - 1) <= 1)
  {
    BudgetIsProduct(p, s);
    BudgetIsProduct(p, s + 1);
    var m := p.max - 1;
    assert (s + 1) * m == s * m + m;
    if MostFailures(p, s) <= 2 * m {
      forall h, start, i, j | LockFree(p, h, start, i, j) && SuccessesFrom(p, h, i, j) == s
        ensures FailuresFrom(p, h, i, j) <= 2 * m
      {
        FailuresPerWindow(p, h, start, i, j);
      }
    } else {
      var h, start, i := BoundAttained(p, s);
      assert FailuresFrom(p, h, i, |h|) > 2 * m;
    }
    if p.window == 1 && s >= 2 && m > 0 { assert s * m >= 2 * m; }
  }

  // ----- every escalation the bound allows does happen -----

  lemma OrderedAppend(h: seq<Attempt>, a: Attempt)
    requires Ordered(h) && LastTime(h) <= a.time
    ensures Ordered(h + [a]) && LastTime(h + [a]) == a.time
  {}

  /** Failing at time t until the lock: `left` failures are still missing. */
  lemma {:induction false} Burst(p: Policy, h: seq<Attempt>, t: nat, left: nat) returns (g: seq<Attempt>)
    requires PolicyOk(p) && Ordered(h) && LastTime(h) <= t
    requires ValueAt(After(p, h).lock, t) == 0 && 1 <= left && ValueAt(After(p, h).fail, t) + left == p.max
    ensures Ordered(g) && |g| > |h| && g[..|h|] == h && LastTime(g) == t && g[|g| - 1].time == t
    ensures var cycle := ValueAt(After(p, h).count, t) + 1;
            && VerdictAt(p, g, |g| - 1) == Locked(cycle, Duration(p, cycle))
            && After(p, g) == Throttle(EMPTY, Slot(1, t + Duration(p, cycle)), Slot(cycle, t + p.cap))
    decreases left
  {
    var a := Attempt(t, false);
    OrderedAppend(h, a);
    AfterAppend(p, h, a);
    if left == 1 {
      g := h + [a];
    } else {
      g := Burst(p, h + [a], t, left - 1);
      assert g[..|h|] == (h + [a])[..|h|] == h;
    }
  }

  lemma Capped(p: Policy, k: nat)
    requires PolicyOk(p) && k >= 2 && Bounded(p, k)
    ensures Duration(p, k - 1) < p.cap && Bounded(p, k - 1)
  {
    if k >= 3 {
      var x := Pow2(k - 3);
      assert p.base * (2 * x) == 2 * (p.base * x);
      assert p.base * x >= 0;
    }
  }

  /** Under every policy some history reaches a k-th lock of one streak, for every k within the bound. */
  lemma {:induction false} EscalationReached(p: Policy, k: nat) returns (h: seq<Attempt>)
    requires PolicyOk(p) && k >= 1 && Bounded(p, k)
    ensures Ordered(h) && h != [] && After(p, h) == Throttle(EMPTY, Slot(1, LastTime(h) + Duration(p, k)),
                                                             Slot(k, LastTime(h) + p.cap))
    ensures VerdictAt(p, h, |h| - 1) == Locked(k, Duration(p, k))
  {
    if k == 1 {
      h := Burst(p, [], 0, p.max);
    } else {
      Capped(p, k);
      var before := EscalationReached(p, k - 1);
      h := Burst(p, before, LastTime(before) + Duration(p, k - 1), p.max);
    }
  }

  lemma {:induction false} Pow2Grows(m: nat, n: nat)
    requires m <= n
    ensures Pow2(m) <= Pow2(n)
    decreases n
  {
    if m == n {
    } else {
      Pow2Grows(m, n - 1);
    }
  }

  /**
   With five failures allowed, base 30 and cap 900, locks of 30, 60, 120, 240, 480 and 900 seconds; never a
   seventh.
   */
  lemma UsualPolicy(k: nat) returns (h: seq<Attempt>)
    requires 1 <= k
    ensures Bounded(Policy(5, 900, 30, 900), k) <==> k <= 6
    ensures k <= 6 ==>
              && h != [] && Ordered(h)
              && VerdictAt(Policy(5, 900, 30, 900), h, |h| - 1)
                 == Locked(k, if k == 1 then 30 else if k == 2 then 60 else if k == 3 then 120
                              else if k == 4 then 240 else if k == 5 then 480 else 900)
  {
    var p := Policy(5, 900, 30, 900);
    assert Pow2(0) == 1 && Pow2(1) == 2 && Pow2(2) == 4;
    assert Pow2(3) == 8 && Pow2(4) == 16 && Pow2(5) == 32;
    h := [];
    if k <= 6 {
      h := EscalationReached(p, k);
    } else {
      Pow2Grows(5, k - 2);
    }
  }
}
