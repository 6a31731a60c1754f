/**
  One request per website and interval (internal/queue/sitelimit.go).

  Reserve is one statement, so concurrent reservations are a sequence. Each comes with the
  clock of its own worker, and clocks may disagree or run backwards.
*/
module SiteLimiter {
  import opened Prelude

  /** The URL of a request has a host, or it has none and Reserve reports an error. */
  datatype Request = Request(host: Option<string>, now: Time)

  type Slots = map<string, Time>

  function Max(a: Time, b: Time): Time {
    if a >= b then a else b
  }

  function SlotFor(slots: Slots, host: string, now: Time): Time {
    if host in slots then Max(slots[host], now) else now
  }

  class Limiter {
    const interval: int
    var slots: Slots

    constructor (interval: int)
      ensures this.interval == interval && slots == map[]
    {
      this.interval := interval;
      slots := map[];
    }

    method Reserve(r: Request) returns (slot: Option<Time>)
      modifies this
      ensures slot.None? <==> r.host.None?
      ensures slot == Granted(old(slots), r) && slots == After(old(slots), interval, r)
    {
      if r.host.None? {
        return None;
      }
      var host := r.host.value;
      var next := (if host in slots then Max(slots[host], r.now) else r.now) + interval;
      slots := slots[host := next];
      return Some(next - interval);
    }
  }

  function Granted(slots: Slots, r: Request): Option<Time> {
    if r.host.None? then None else Some(SlotFor(slots, r.host.value, r.now))
  }

  function After(slots: Slots, interval: int, r: Request): Slots {
    if r.host.None? then slots else slots[r.host.value := SlotFor(slots, r.host.value, r.now) + interval]
  }

  /** The table after the first n requests, from an empty one. */
  function Table(rs: seq<Request>, interval: int, n: nat): Slots
    requires n <= |rs|
  {
    if n == 0 then map[] else After(Table(rs, interval, n - 1), interval, rs[n - 1])
  }

  function Slot(rs: seq<Request>, interval: int, n: nat): Option<Time>
    requires n < |rs|
  {
    Granted(Table(rs, interval, n), rs[n])
  }

  /** The row of a website is one interval after its last slot. */
  lemma {:induction false} RowFollowsLastSlot(rs: seq<Request>, interval: int, n: nat, host: string)
    requires interval >= 0 && n <= |rs|
    ensures host in Table(rs, interval, n) <==> exists i :: 0 <= i < n && rs[i].host == Some(host)
    ensures host in Table(rs, interval, n) ==>
      && (forall i | 0 <= i < n && rs[i].host == Some(host) ::
            Slot(rs, interval, i).value + interval <= Table(rs, interval, n)[host])
      && exists i :: 0 <= i < n && rs[i].host == Some(host)
           && Slot(rs, interval, i).value + interval == Table(rs, interval, n)[host]
  {
    if n > 0 {
      RowFollowsLastSlot(rs, interval, n - 1, host);
      if rs[n - 1].host == Some(host) {
        assert Slot(rs, interval, n - 1).value + interval == Table(rs, interval, n)[host];
      }
    }
  }

  /** A time at which the n-th request may go out: not in its worker's past, and clear of all earlier slots. */
  ghost predicate Allowed(rs: seq<Request>, interval: int, n: nat, t: Time)
    requires n < |rs|
  {
    && t >= rs[n].now
    && forall i | 0 <= i < n && rs[i].host.Some? && rs[i].host == rs[n].host :: t >= Slot(rs, interval, i).value + interval
  }

  /**
    Two slots of one website are at least an interval apart, no slot lies before its worker's
    clock, and each slot is the earliest such time.
  */
  lemma SlotIsEarliestAllowed(rs: seq<Request>, interval: int, n: nat)
    requires interval >= 0 && n < |rs| && rs[n].host.Some?
    ensures Slot(rs, interval, n).Some? && Allowed(rs, interval, n, Slot(rs, interval, n).value)
    ensures forall t | Allowed(rs, interval, n, t) :: Slot(rs, interval, n).value <= t
  {
    RowFollowsLastSlot(rs, interval, n, rs[n].host.value);
  }

  lemma SlotsKeepTheirDistance(rs: seq<Request>, interval: int, i: nat, j: nat)
    requires interval >= 0 && i < j < |rs| && rs[i].host.Some? && rs[i].host == rs[j].host
    ensures Slot(rs, interval, j).value >= Slot(rs, interval, i).value + interval
  {
    SlotIsEarliestAllowed(rs, interval, j);
  }

  /** How many of the requests from the m-th up to the n-th, without it, are for the website. */
  function RequestsFor(rs: seq<Request>, host: string, m: nat, n: nat): nat
    requires m <= n <= |rs|
  {
    if m == n then 0 else RequestsFor(rs, host, m, n - 1) + (if rs[n - 1].host == Some(host) then 1 else 0)
  }

  ghost predicate AllAt(rs: seq<Request>, host: string, m: nat, n: nat, t: Time)
    requires m <= n <= |rs|
  {
    forall i | m <= i < n && rs[i].host == Some(host) :: rs[i].now == t
  }

  /** A request at that time would not have to wait. */
  predicate Free(slots: Slots, host: string, t: Time) {
    host in slots ==> slots[host] <= t
  }

  /** k intervals after f. */
  function Later(f: Time, interval: int, k: nat): Time {
    if k == 0 then f else Later(f, interval, k - 1) + interval
  }

  lemma {:induction false} LaterIs(f: Time, interval: int, k: nat)
    ensures Later(f, interval, k) == f + k * interval
  {
    if k > 0 {
      LaterIs(f, interval, k - 1);
      assert k * interval == (k - 1) * interval + interval;
    }
  }

  lemma {:induction false} RowAfterBurst(rs: seq<Request>, interval: int, m: nat, n: nat, host: string, t: Time)
    requires interval >= 0 && m <= n <= |rs| && AllAt(rs, host, m, n, t)
    ensures SlotFor(Table(rs, interval, n), host, t)
      == Later(SlotFor(Table(rs, interval, m), host, t), interval, RequestsFor(rs, host, m, n)) >= t
  {
    if m < n {
      RowAfterBurst(rs, interval, m, n - 1, host, t);
    }
  }

  /**
    A burst for one website at one time, at any point of any history and mixed with requests for
    other websites, gets f, f + I, f + 2I and so on, where f is the time itself exactly when the
    website is free then, and the end of its last interval otherwise.
  */
  lemma BurstIsSpread(rs: seq<Request>, interval: int, m: nat, n: nat, host: string, t: Time)
    requires interval >= 0 && m <= n < |rs| && rs[n].host == Some(host) && AllAt(rs, host, m, n + 1, t)
    ensures Free(Table(rs, interval, m), host, t) ==>
      Slot(rs, interval, n) == Some(t + RequestsFor(rs, host, m, n) * interval)
    ensures !Free(Table(rs, interval, m), host, t) ==>
      Slot(rs, interval, n) == Some(Table(rs, interval, m)[host] + RequestsFor(rs, host, m, n) * interval)
  {
    RowAfterBurst(rs, interval, m, n, host, t);
    LaterIs(SlotFor(Table(rs, interval, m), host, t), interval, RequestsFor(rs, host, m, n));
  }
}
