/** The order of throttle checks around one login, failing closed when the store is unreachable. */
module AuthService {
  import opened Wrappers
  import opened Redis
  import opened LoginThrottle
  import Attempts = LoginAttemptRepository
  import Ip = IpRateLimit

  datatype LoginResult = Token | InvalidCredentials | IpLimited(retry: nat) | AccountLocked(retry: nat) | Unavailable

  /** Which call to the store fails, if any. */
  datatype Outage = NoOutage | AtIpCheck | AtLockCheck | AtRecord

  /** An absent or empty address is not limited. */
  predicate Limited(clientIp: Option<string>) {
    clientIp.Some? && clientIp.value != ""
  }

  /** What one login does: result, throttle of the identifier, slot of the address. */
  function Outcome(
      p: Policy, limit: nat, window: nat, th: Throttle, slot: Slot, t: nat,
      reserved: bool, fromIp: bool, valid: bool, outage: Outage): (LoginResult, Throttle, Slot)
  {
    if reserved then (InvalidCredentials, th, slot)
    else if fromIp && outage == AtIpCheck then (Unavailable, th, slot)
    else
      var slot' := if fromIp then Ip.Hit(window, slot, t) else slot;
      if fromIp && slot'.value > limit then (IpLimited(slot'.until - t), th, slot')
      else if outage == AtLockCheck then (Unavailable, th, slot')
      else if ValueAt(th.lock, t) > 0 then (AccountLocked(th.lock.until - t), th, slot')
      else if outage == AtRecord then (Unavailable, th, slot')
      else
        var (th', v) := Try(p, th, Attempt(t, valid));
        (if valid then Token else InvalidCredentials, th', slot')
  }

  /**
   A token is issued exactly for valid credentials of an unreserved identifier, within the address's
   limit, outside any lock and with the store reachable; a locked identifier's counters are never touched.
   */
  lemma TokenExactly(
      p: Policy, limit: nat, window: nat, th: Throttle, slot: Slot, t: nat,
      reserved: bool, fromIp: bool, valid: bool, outage: Outage)
    ensures var (r, th', slot') := Outcome(p, limit, window, th, slot, t, reserved, fromIp, valid, outage);
            && (r == Token <==>
                  && valid && !reserved && ValueAt(th.lock, t) == 0
                  && (fromIp ==> ValueAt(slot, t) < limit && outage != AtIpCheck)
                  && outage != AtLockCheck && outage != AtRecord)
            && (ValueAt(th.lock, t) > 0 ==> th' == th)
            && (r.Unavailable? || r.IpLimited? || r.AccountLocked? ==> th' == th)
            && (reserved ==> th' == th && slot' == slot)
            && (th'.count != th.count ==> !valid)
  {
    if ValueAt(slot, t) == 0 { assert Ip.Hit(window, slot, t).value == 1; }
  }

  /** The address lets the request pass: no limit on it, or fewer than limit requests in its window. */
  predicate AddressOpen(limit: nat, slot: Slot, t: nat, fromIp: bool, outage: Outage) {
    fromIp ==> outage != AtIpCheck && ValueAt(slot, t) < limit
  }

  /**
   When each of the other answers is given, and how long the caller is told to wait: until the address's
   window, or the identifier's lock, is over.
   */
  lemma AnswersExactly(
      p: Policy, limit: nat, window: nat, th: Throttle, slot: Slot, t: nat,
      reserved: bool, fromIp: bool, valid: bool, outage: Outage)
    ensures var r := Outcome(p, limit, window, th, slot, t, reserved, fromIp, valid, outage).0;
            var open := !reserved && AddressOpen(limit, slot, t, fromIp, outage);
            && (r.IpLimited? <==> !reserved && fromIp && outage != AtIpCheck && ValueAt(slot, t) >= limit)
            && (r.IpLimited? ==> r.retry == if ValueAt(slot, t) > 0 then slot.until - t else window)
            && (r.AccountLocked? <==> open && outage != AtLockCheck && ValueAt(th.lock, t) > 0)
            && (r.AccountLocked? ==> t + r.retry == th.lock.until)
            && (r.Unavailable? <==>
                  || (!reserved && fromIp && outage == AtIpCheck)
                  || (open && outage == AtLockCheck)
                  || (open && outage == AtRecord && ValueAt(th.lock, t) == 0))
            && (r.InvalidCredentials? <==>
                  || reserved
                  || (open && outage !in {AtLockCheck, AtRecord} && ValueAt(th.lock, t) == 0 && !valid))
  {
    if ValueAt(slot, t) == 0 { assert Ip.Hit(window, slot, t) == Slot(1, t + window); }
  }

  // ----- whole runs of logins -----

  /** The settings of the two throttles. */
  datatype Limits = Limits(policy: Policy, limit: nat, window: nat, reserved: set<string>)

  predicate LimitsOk(c: Limits) {
    PolicyOk(c.policy) && c.window >= 1
  }

  datatype Request = Request(id: string, clientIp: Option<string>, time: nat, valid: bool, outage: Outage)

  predicate Chronological(log: seq<Request>) {
    forall i, j | 0 <= i < j < |log| :: log[i].time <= log[j].time
  }

  /** A request that the address limiter counts against this address. */
  predicate Counts(c: Limits, r: Request, ip: string) {
    r.id !in c.reserved && Limited(r.clientIp) && r.clientIp.value == ip && r.outage != AtIpCheck
  }

  /** When an address had its requests counted. */
  function CountedAt(c: Limits, log: seq<Request>, ip: string): seq<nat> {
    if log == [] then []
    else
      var r := log[|log| - 1];
      CountedAt(c, log[..|log| - 1], ip) + if Counts(c, r, ip) then [r.time] else []
  }

  /** The request is not turned away before the lock check, given everything before it. */
  predicate LetIn(c: Limits, before: seq<Request>, r: Request) {
    && r.id !in c.reserved
    && (Limited(r.clientIp) ==>
          && r.outage != AtIpCheck
          && var times := CountedAt(c, before, r.clientIp.value);
             Ip.Allowed(c.limit, c.window, times + [r.time], |times|))
  }

  /** The attempts on one identifier: its requests that were let in and that no outage kept from being judged. */
  function AttemptsOn(c: Limits, log: seq<Request>, id: string): seq<Attempt> {
    if log == [] then []
    else
      var before, r := log[..|log| - 1], log[|log| - 1];
      AttemptsOn(c, before, id) +
      if r.id == id && LetIn(c, before, r) && r.outage !in {AtLockCheck, AtRecord}
      then [Attempt(r.time, r.valid)] else []
  }

  function LastTimeOf(log: seq<Request>): nat {
    if log == [] then 0 else log[|log| - 1].time
  }

  /** What a request gets, from the history alone. */
  function Reply(c: Limits, before: seq<Request>, r: Request): (LoginResult, Throttle, Slot) {
    Outcome(c.policy, c.limit, c.window,
            After(c.policy, AttemptsOn(c, before, r.id)),
            Ip.After(c.window, CountedAt(c, before, r.clientIp.GetOr(""))),
            r.time, r.id in c.reserved, Limited(r.clientIp), r.valid, r.outage)
  }

  /** A request of the log got the answer that everything before it calls for. */
  predicate Answered(c: Limits, log: seq<Request>, k: nat, answer: LoginResult)
    requires k < |log|
  {
    answer == Reply(c, log[..k], log[k]).0
  }

  ghost predicate AllAnswered(c: Limits, log: seq<Request>, answers: seq<LoginResult>) {
    |answers| == |log| && forall k | 0 <= k < |log| :: Answered(c, log, k, answers[k])
  }

  lemma AnsweredNext(c: Limits, log: seq<Request>, answers: seq<LoginResult>, r: Request, answer: LoginResult)
    requires AllAnswered(c, log, answers) && answer == Reply(c, log, r).0
    ensures AllAnswered(c, log + [r], answers + [answer])
  {
    assert (log + [r])[..|log|] == log;
    forall k | 0 <= k < |log| ensures Answered(c, log + [r], k, answers[k]) {
      assert Answered(c, log, k, answers[k]);
      assert (log + [r])[..k] == log[..k];
    }
  }

  lemma AppendedCount(c: Limits, before: seq<Request>, r: Request, ip: string)
    ensures Ip.After(c.window, CountedAt(c, before + [r], ip)) ==
            var slot := Ip.After(c.window, CountedAt(c, before, ip));
            if Counts(c, r, ip) then Ip.Hit(c.window, slot, r.time) else slot
  {
    var times := CountedAt(c, before, ip);
    assert (before + [r])[..|before|] == before;
    assert (times + [r.time])[..|times|] == times;
    assert times + [] == times;
  }

  lemma AppendedAttempt(c: Limits, before: seq<Request>, r: Request, id: string)
    ensures After(c.policy, AttemptsOn(c, before + [r], id)) ==
            var th := After(c.policy, AttemptsOn(c, before, id));
            if r.id == id && LetIn(c, before, r) && r.outage !in {AtLockCheck, AtRecord}
            then Try(c.policy, th, Attempt(r.time, r.valid)).0 else th
  {
    var h, a := AttemptsOn(c, before, id), Attempt(r.time, r.valid);
    assert (before + [r])[..|before|] == before;
    assert (h + [a])[..|h|] == h;
    assert h + [] == h;
  }

  lemma LetInIsAllowed(c: Limits, before: seq<Request>, r: Request)
    requires Limited(r.clientIp)
    ensures LetIn(c, before, r) <==>
              && r.id !in c.reserved && r.outage != AtIpCheck
              && Ip.Hit(c.window, Ip.After(c.window, CountedAt(c, before, r.clientIp.value)), r.time).value <= c.limit
  {
    var times := CountedAt(c, before, r.clientIp.value);
    assert (times + [r.time])[..|times| + 1] == times + [r.time];
    assert (times + [r.time])[..|times|] == times;
  }

  /** The two halves of a login's effect: whether the attempt is judged, and whether the request is counted. */
  lemma OutcomeSplits(
      p: Policy, limit: nat, window: nat, th: Throttle, slot: Slot, t: nat,
      reserved: bool, fromIp: bool, valid: bool, outage: Outage)
    ensures var (_, th', slot') := Outcome(p, limit, window, th, slot, t, reserved, fromIp, valid, outage);
            var letIn := !reserved && (fromIp ==> outage != AtIpCheck && Ip.Hit(window, slot, t).value <= limit);
            && th' == (if letIn && outage !in {AtLockCheck, AtRecord} then Try(p, th, Attempt(t, valid)).0 else th)
            && slot' == if !reserved && fromIp && outage != AtIpCheck then Ip.Hit(window, slot, t) else slot
  {}

  lemma CountedExactly(c: Limits, before: seq<Request>, r: Request)
    ensures Counts(c, r, r.clientIp.GetOr("")) <==> r.id !in c.reserved && Limited(r.clientIp) && r.outage != AtIpCheck
    ensures var slot := Ip.After(c.window, CountedAt(c, before, r.clientIp.GetOr("")));
            LetIn(c, before, r) <==>
              r.id !in c.reserved
              && (Limited(r.clientIp) ==> r.outage != AtIpCheck && Ip.Hit(c.window, slot, r.time).value <= c.limit)
  {
    if Limited(r.clientIp) {
      LetInIsAllowed(c, before, r);
    }
  }

  /** One login moves the identifier's throttle and the address's slot exactly as it moves their histories. */
  lemma ReplyContinuesHistory(c: Limits, before: seq<Request>, r: Request)
    ensures var (_, th, slot) := Reply(c, before, r);
            && th == After(c.policy, AttemptsOn(c, before + [r], r.id))
            && slot == Ip.After(c.window, CountedAt(c, before + [r], r.clientIp.GetOr("")))
  {
    AppendedAttempt(c, before, r, r.id);
    AppendedCount(c, before, r, r.clientIp.GetOr(""));
    CountedExactly(c, before, r);
    OutcomeSplits(c.policy, c.limit, c.window,
                  After(c.policy, AttemptsOn(c, before, r.id)),
                  Ip.After(c.window, CountedAt(c, before, r.clientIp.GetOr(""))),
                  r.time, r.id in c.reserved, Limited(r.clientIp), r.valid, r.outage);
  }

  lemma {:induction false} AttemptsOrdered(c: Limits, log: seq<Request>, id: string)
    requires Chronological(log)
    ensures Ordered(AttemptsOn(c, log, id)) && LastTime(AttemptsOn(c, log, id)) <= LastTimeOf(log)
  {
    if log == [] {
    } else {
      var before, r := log[..|log| - 1], log[|log| - 1];
      AttemptsOrdered(c, before, id);
      assert LastTimeOf(before) <= r.time;
      OrderedAppend(AttemptsOn(c, before, id), Attempt(r.time, r.valid));
      assert AttemptsOn(c, before, id) + [] == AttemptsOn(c, before, id);
    }
  }

  lemma {:induction false} CountsOrdered(c: Limits, log: seq<Request>, ip: string)
    requires Chronological(log)
    ensures Ip.Ordered(CountedAt(c, log, ip)) && Ip.LastTime(CountedAt(c, log, ip)) <= LastTimeOf(log)
  {
    if log == [] {
    } else {
      var before, r := log[..|log| - 1], log[|log| - 1];
      CountsOrdered(c, before, ip);
      assert LastTimeOf(before) <= r.time;
      Ip.OrderedAppend(CountedAt(c, before, ip), r.time);
      assert CountedAt(c, before, ip) + [] == CountedAt(c, before, ip);
    }
  }

  /** The histories a run leaves are in order of time, so all that is proved of ordered histories holds of runs. */
  lemma HistoriesOrdered(c: Limits, log: seq<Request>, id: string, ip: string)
    requires Chronological(log)
    ensures Ordered(AttemptsOn(c, log, id)) && LastTime(AttemptsOn(c, log, id)) <= LastTimeOf(log)
    ensures Ip.Ordered(CountedAt(c, log, ip)) && Ip.LastTime(CountedAt(c, log, ip)) <= LastTimeOf(log)
  {
    AttemptsOrdered(c, log, id);
    CountsOrdered(c, log, ip);
  }

  // ----- the store -----

  /** The address key is none of any identifier's. */
  lemma IpKeyApart(ip: string, id: string)
    ensures Ip.IpKey(ip) !in Attempts.KeysOf(id)
  {
    assert Ip.IpKey(ip)[0] == 'r';
    assert Attempts.FailKey(id)[0] == Attempts.LockKey(id)[0] == Attempts.CountKey(id)[0] == 'l';
  }

  lemma IpCheckKeepsThrottle(data: map<string, Entry>, data': map<string, Entry>, ip: string, id: string)
    requires data' - {Ip.IpKey(ip)} == data - {Ip.IpKey(ip)}
    ensures Attempts.ThrottleIn(data', id) == Attempts.ThrottleIn(data, id)
  {
    IpKeyApart(ip, id);
    forall key | key in Attempts.KeysOf(id) ensures SlotOf(data', key) == SlotOf(data, key) {
      assert key in data <==> key in data - {Ip.IpKey(ip)};
      assert key in data' <==> key in data' - {Ip.IpKey(ip)};
    }
  }

  lemma IpCheckKeepsSlots(data: map<string, Entry>, data': map<string, Entry>, ip: string, other: string)
    requires data' - {Ip.IpKey(ip)} == data - {Ip.IpKey(ip)} && other != ip
    ensures SlotOf(data', Ip.IpKey(other)) == SlotOf(data, Ip.IpKey(other))
  {
    var key := Ip.IpKey(other);
    assert key[16..] == other && Ip.IpKey(ip)[16..] == ip;
    assert key in data <==> key in data - {Ip.IpKey(ip)};
    assert key in data' <==> key in data' - {Ip.IpKey(ip)};
  }

  lemma RecordKeepsSlot(data: map<string, Entry>, data': map<string, Entry>, ip: string, id: string)
    requires data' - Attempts.KeysOf(id) == data - Attempts.KeysOf(id)
    ensures SlotOf(data', Ip.IpKey(ip)) == SlotOf(data, Ip.IpKey(ip))
  {
    IpKeyApart(ip, id);
    var key := Ip.IpKey(ip);
    assert key in data <==> key in data - Attempts.KeysOf(id);
    assert key in data' <==> key in data' - Attempts.KeysOf(id);
  }

  predicate HoldsAttempts(c: Limits, data: map<string, Entry>, log: seq<Request>, id: string) {
    Attempts.ThrottleIn(data, id) == After(c.policy, AttemptsOn(c, log, id))
  }

  predicate HoldsCounts(c: Limits, data: map<string, Entry>, log: seq<Request>, ip: string) {
    SlotOf(data, Ip.IpKey(ip)) == Ip.After(c.window, CountedAt(c, log, ip))
  }

  /** The store holds exactly what the requests of the log have left behind. */
  ghost predicate Holds(c: Limits, data: map<string, Entry>, log: seq<Request>) {
    (forall id :: HoldsAttempts(c, data, log, id)) && (forall ip :: HoldsCounts(c, data, log, ip))
  }

  lemma StoreGivesReply(c: Limits, data: map<string, Entry>, log: seq<Request>, r: Request)
    requires Holds(c, data, log)
    ensures Outcome(c.policy, c.limit, c.window,
                    Attempts.ThrottleIn(data, r.id), SlotOf(data, Ip.IpKey(r.clientIp.GetOr(""))),
                    r.time, r.id in c.reserved, Limited(r.clientIp), r.valid, r.outage)
            == Reply(c, log, r)
  {
    assert HoldsAttempts(c, data, log, r.id) && HoldsCounts(c, data, log, r.clientIp.GetOr(""));
  }

  /** What one login changes in the store keeps the store in step with the log. */
  lemma LoginKeepsHolds(
      c: Limits, data: map<string, Entry>, data': map<string, Entry>, log: seq<Request>, r: Request,
      answer: LoginResult)
    requires Holds(c, data, log)
    requires (answer, Attempts.ThrottleIn(data', r.id), SlotOf(data', Ip.IpKey(r.clientIp.GetOr(""))))
             == Reply(c, log, r)
    requires forall other | other != r.id :: Attempts.ThrottleIn(data', other) == Attempts.ThrottleIn(data, other)
    requires forall other | other != r.clientIp.GetOr("") ::
               SlotOf(data', Ip.IpKey(other)) == SlotOf(data, Ip.IpKey(other))
    ensures Holds(c, data', log + [r])
  {
    ReplyContinuesHistory(c, log, r);
    forall id ensures HoldsAttempts(c, data', log + [r], id) {
      assert HoldsAttempts(c, data, log, id);
      AppendedAttempt(c, log, r, id);
    }
    forall ip ensures HoldsCounts(c, data', log + [r], ip) {
      assert HoldsCounts(c, data, log, ip);
      AppendedCount(c, log, r, ip);
    }
  }

  class Auth {
    const redis: Store
    const attempts: Attempts.LoginAttempts
    const limiter: Ip.IpLimiter
    const reserved: set<string>

    predicate Wired() {
      attempts.redis == redis && limiter.redis == redis && PolicyOk(attempts.policy) && limiter.window >= 1
    }

    constructor (redis: Store, policy: Policy, limit: nat, window: nat, reserved: set<string>)
      requires PolicyOk(policy) && window >= 1
      ensures this.redis == redis && this.reserved == reserved && Wired()
      ensures fresh(attempts) && fresh(limiter)
      ensures attempts.policy == policy && limiter.limit == limit && limiter.window == window
    {
      this.redis, this.reserved := redis, reserved;
      attempts := new Attempts.LoginAttempts(redis, policy);
      limiter := new Ip.IpLimiter(redis, limit, window);
    }

    /** `valid` is what the user lookup, the password check and the active flag come to together. */
    method Login(id: string, clientIp: Option<string>, valid: bool, outage: Outage) returns (r: LoginResult)
      requires Wired() && Timed(redis.data)
      modifies redis`data
      ensures Timed(redis.data)
      ensures var ip := clientIp.GetOr("");
              (r, Attempts.ThrottleIn(redis.data, id), SlotOf(redis.data, Ip.IpKey(ip)))
              == Outcome(attempts.policy, limiter.limit, limiter.window,
                         Attempts.ThrottleIn(old(redis.data), id), SlotOf(old(redis.data), Ip.IpKey(ip)), redis.now,
                         id in reserved, Limited(clientIp), valid, outage)
      ensures forall other | other != id ::
                Attempts.ThrottleIn(redis.data, other) == Attempts.ThrottleIn(old(redis.data), other)
      ensures forall other | other != clientIp.GetOr("") ::
                SlotOf(redis.data, Ip.IpKey(other)) == SlotOf(old(redis.data), Ip.IpKey(other))
    {
      if id in reserved {
        return InvalidCredentials;
      }
      if Limited(clientIp) {
        if outage == AtIpCheck {
          return Unavailable;
        }
        var allowed, retryAfter := limiter.Check(clientIp.value);
        forall other ensures Attempts.ThrottleIn(redis.data, other) == Attempts.ThrottleIn(old(redis.data), other) {
          IpCheckKeepsThrottle(old(redis.data), redis.data, clientIp.value, other);
        }
        forall other | other != clientIp.value
          ensures SlotOf(redis.data, Ip.IpKey(other)) == SlotOf(old(redis.data), Ip.IpKey(other))
        {
          IpCheckKeepsSlots(old(redis.data), redis.data, clientIp.value, other);
        }
        if !allowed {
          return IpLimited(retryAfter);
        }
      }
      if outage == AtLockCheck {
        return Unavailable;
      }
      var locked, retry := attempts.GetLockStatus(id);
      if locked {
        return AccountLocked(retry);
      }
      if outage == AtRecord {
        return Unavailable;
      }
      ghost var before := redis.data;
      if valid {
        attempts.RecordSuccess(id);
        r := Token;
      } else {
        var nowLocked, wait := attempts.RecordFailure(id);
        r := InvalidCredentials;
      }
      forall ip ensures SlotOf(redis.data, Ip.IpKey(ip)) == SlotOf(before, Ip.IpKey(ip)) {
        RecordKeepsSlot(before, redis.data, ip, id);
      }
      forall other | other != id
        ensures Attempts.ThrottleIn(redis.data, other) == Attempts.ThrottleIn(old(redis.data), other)
      {
        Attempts.OthersKept(before, redis.data, id, other);
      }
    }

    function Settings(): Limits {
      Limits(attempts.policy, limiter.limit, limiter.window, reserved)
    }

    /** The requests of the log got these answers and left exactly this store behind. */
    ghost predicate Recorded(log: seq<Request>, answers: seq<LoginResult>)
      reads redis
    {
      Wired() && Timed(redis.data) && Holds(Settings(), redis.data, log) && AllAnswered(Settings(), log, answers)
    }

    /** One request at its time: its answer, and the store afterwards, follow from the history alone. */
    method LoginAt(ghost log: seq<Request>, ghost answers: seq<LoginResult>, r: Request) returns (result: LoginResult)
      requires Recorded(log, answers) && redis.now <= r.time
      modifies redis
      ensures Recorded(log + [r], answers + [result]) && redis.now == r.time
    {
      ghost var data := redis.data;
      redis.Wait(r.time - redis.now);
      StoreGivesReply(Settings(), data, log, r);
      result := Login(r.id, r.clientIp, r.valid, r.outage);
      LoginKeepsHolds(Settings(), data, redis.data, log, r, result);
      AnsweredNext(Settings(), log, answers, r, result);
    }

    /** Requests served one after another, the clock moving on in between. */
    method Serve(ghost log: seq<Request>, ghost answers: seq<LoginResult>, requests: seq<Request>)
      returns (results: seq<LoginResult>)
      requires Recorded(log, answers)
      requires Chronological(requests) && (requests != [] ==> redis.now <= requests[0].time)
      modifies redis
      ensures Recorded(log + requests, answers + results) && |results| == |requests|
    {
      results := [];
      ghost var served, given := log, answers;
      for n := 0 to |requests|
        invariant Recorded(served, given) && served == log + requests[..n] && given == answers + results
        invariant |results| == n && (n < |requests| ==> redis.now <= requests[n].time)
      {
        var result := LoginAt(served, given, requests[n]);
        results := results + [result];
        served, given := served + [requests[n]], given + [result];
        assert served == log + requests[..n + 1] && given == answers + results;
      }
      assert served == log + requests;
    }
  }

  /** A fresh store records the empty history. */
  method Start(limits: Limits) returns (auth: Auth)
    requires LimitsOk(limits)
    ensures fresh(auth) && fresh(auth.redis) && auth.Settings() == limits && auth.Recorded([], [])
  {
    var store := new Store();
    auth := new Auth(store, limits.policy, limits.limit, limits.window, limits.reserved);
  }
}
