/** Lockout state in the store: each method is proved equal to the throttle function on its three keys. */
module LoginAttemptRepository {
  import opened Wrappers
  import opened Redis
  import opened LoginThrottle

  function FailKey(id: string): string { "login:fail:" + id }
  function LockKey(id: string): string { "login:lock:" + id }
  function CountKey(id: string): string { "login:lockcount:" + id }

  function KeysOf(id: string): set<string> {
    {FailKey(id), LockKey(id), CountKey(id)}
  }

  function ThrottleIn(data: map<string, Entry>, id: string): Throttle {
    Throttle(SlotOf(data, FailKey(id)), SlotOf(data, LockKey(id)), SlotOf(data, CountKey(id)))
  }

  /** Three different keys per identifier, and no two identifiers share one. */
  lemma KeysDisjoint(a: string, b: string)
    ensures FailKey(a) != LockKey(b) && FailKey(a) != CountKey(b) && LockKey(a) != CountKey(b)
    ensures a != b ==> KeysOf(a) !! KeysOf(b)
  {
    assert FailKey(a)[6] == 'f' && LockKey(b)[6] == 'l' && CountKey(b)[6] == 'l' && LockKey(a)[6] == 'l';
    assert LockKey(a)[10] == ':' && CountKey(b)[10] == 'c';
    assert LockKey(b)[10] == ':' && CountKey(a)[10] == 'c' && FailKey(b)[6] == 'f' && CountKey(a)[6] == 'l';
    assert FailKey(a)[11..] == a && FailKey(b)[11..] == b;
    assert LockKey(a)[11..] == a && LockKey(b)[11..] == b;
    assert CountKey(a)[16..] == a && CountKey(b)[16..] == b;
  }

  class LoginAttempts {
    const redis: Store
    const policy: Policy

    constructor (redis: Store, policy: Policy)
      ensures this.redis == redis && this.policy == policy
    {
      this.redis, this.policy := redis, policy;
    }

    function State(id: string): Throttle
      reads redis
    {
      ThrottleIn(redis.data, id)
    }

    method GetLockStatus(id: string) returns (locked: bool, retryAfter: nat)
      requires Timed(redis.data)
      ensures locked == (ValueAt(State(id).lock, redis.now) > 0)
      ensures retryAfter == if locked then State(id).lock.until - redis.now else 0
    {
      var ttl := redis.Ttl(LockKey(id));
      if ttl > 0 {
        return true, ttl;
      }
      return false, 0;
    }

    method RecordSuccess(id: string)
      requires Timed(redis.data)
      modifies redis`data
      ensures Timed(redis.data)
      ensures State(id) == old(State(id)).(fail := EMPTY, lock := EMPTY)
      ensures redis.data - KeysOf(id) == old(redis.data) - KeysOf(id)
    {
      KeysDisjoint(id, id);
      redis.Delete({FailKey(id), LockKey(id)});
      assert redis.data - KeysOf(id) == old(redis.data) - KeysOf(id);
    }

    method SetLock(id: string) returns (duration: nat)
      requires PolicyOk(policy) && Timed(redis.data)
      modifies redis`data
      ensures Timed(redis.data)
      ensures var cycle := ValueAt(old(State(id)).count, redis.now) + 1;
              && duration == Duration(policy, cycle)
              && State(id) == Throttle(EMPTY, Slot(1, redis.now + duration), Slot(cycle, redis.now + policy.cap))
      ensures redis.data - KeysOf(id) == old(redis.data) - KeysOf(id)
    {
      KeysDisjoint(id, id);
      var cycle := redis.Incr(CountKey(id));
      redis.Expire(CountKey(id), policy.cap);
      duration := Duration(policy, cycle);
      redis.SetEx(LockKey(id), 1, duration);
      redis.Delete({FailKey(id)});
    }

    method RecordFailure(id: string) returns (locked: bool, retryAfter: nat)
      requires PolicyOk(policy) && Timed(redis.data)
      modifies redis`data
      ensures Timed(redis.data)
      ensures var (th, v) := LoginThrottle.RecordFailure(policy, old(State(id)), redis.now);
              State(id) == th && locked == v.Locked? && retryAfter == if v.Locked? then v.seconds else 0
      ensures redis.data - KeysOf(id) == old(redis.data) - KeysOf(id)
    {
      KeysDisjoint(id, id);
      var count := redis.Incr(FailKey(id));
      if count == 1 {
        redis.Expire(FailKey(id), policy.window);
      }
      if count < policy.max {
        return false, 0;
      }
      locked := true;
      retryAfter := SetLock(id);
    }
  }

  /** Calls for one identifier leave every other identifier's state alone. */
  lemma OthersKept(data: map<string, Entry>, data': map<string, Entry>, id: string, other: string)
    requires data' - KeysOf(id) == data - KeysOf(id) && other != id
    ensures ThrottleIn(data', other) == ThrottleIn(data, other)
  {
    KeysDisjoint(id, other);
    forall key | key in KeysOf(other) ensures SlotOf(data', key) == SlotOf(data, key) {
      assert key in data <==> key in data - KeysOf(id);
      assert key in data' <==> key in data' - KeysOf(id);
    }
  }
}
