/**
 The key-value store the throttles live in: values with an optional expiry, on a whole-second clock
 that only moves forward. A key is alive while now is before its expiry.
 */
module Redis {
  import opened Wrappers

  datatype Entry = Entry(value: nat, expiry: Option<nat>)

  /** A counter with its expiry, absent being zero. */
  datatype Slot = Slot(value: nat, until: nat)

  const EMPTY := Slot(0, 0)

  function SlotOf(data: map<string, Entry>, key: string): Slot {
    if key in data then Slot(data[key].value, data[key].expiry.GetOr(0)) else EMPTY
  }

  /** The value seen at time t. */
  function ValueAt(s: Slot, t: nat): nat {
    if t < s.until then s.value else 0
  }

  /** Between two complete throttle calls every key carries an expiry. */
  predicate Timed(data: map<string, Entry>) {
    forall key | key in data :: data[key].expiry.Some? && data[key].value > 0
  }

  class Store {
    var data: map<string, Entry>
    var now: nat

    constructor ()
      ensures data == map[] && now == 0
    {
      data, now := map[], 0;
    }

    predicate Alive(key: string)
      reads this
    {
      key in data && (data[key].expiry == None || now < data[key].expiry.value)
    }

    /** Counts up, keeping the expiry; a missing or expired key starts at one with none. */
    method Incr(key: string) returns (n: nat)
      modifies this`data
      ensures data == old(data)[key := if old(Alive(key)) then old(data)[key].(value := n) else Entry(n, None)]
      ensures n == 1 + if old(Alive(key)) then old(data)[key].value else 0
    {
      if Alive(key) {
        n := data[key].value + 1;
        data := data[key := data[key].(value := n)];
      } else {
        n := 1;
        data := data[key := Entry(1, None)];
      }
    }

    method Expire(key: string, seconds: nat)
      modifies this`data
      ensures data == if old(Alive(key)) then old(data)[key := old(data)[key].(expiry := Some(now + seconds))]
                      else old(data)
    {
      if Alive(key) {
        data := data[key := data[key].(expiry := Some(now + seconds))];
      }
    }

    /** Seconds left; -1 without an expiry, -2 without a key. */
    method Ttl(key: string) returns (seconds: int)
      ensures seconds == if !Alive(key) then -2
                         else if data[key].expiry == None then -1 else data[key].expiry.value - now
    {
      if !Alive(key) {
        return -2;
      }
      seconds := if data[key].expiry == None then -1 else data[key].expiry.value - now;
    }

    method SetEx(key: string, value: nat, seconds: nat)
      modifies this`data
      ensures data == old(data)[key := Entry(value, Some(now + seconds))]
    {
      data := data[key := Entry(value, Some(now + seconds))];
    }

    method Delete(keys: set<string>)
      modifies this`data
      ensures data == old(data) - keys
    {
      data := data - keys;
    }

    method Wait(seconds: nat)
      modifies this`now
      ensures now == old(now) + seconds
    {
      now := now + seconds;
    }
  }
}
