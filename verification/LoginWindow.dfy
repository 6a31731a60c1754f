/**
  The limit on password guesses (allowAttempt in internal/server/auth.go).

  At most five attempts are allowed per client address in any sixty seconds. A request reads the
  clock before it waits for the mutex, so attempts may be handled out of the order of their times.
*/
module LoginWindow {
  import opened Prelude

  const LOGIN_ATTEMPTS := 5
  const LOGIN_WINDOW := 60

  datatype Attempt = Attempt(ip: string, now: Time)

  /** The attempts that are still inside the window that ends now. */
  function Recent(ts: seq<Time>, now: Time): seq<Time> {
    if ts == [] then []
    else
      var older := Recent(ts[..|ts| - 1], now);
      if now - ts[|ts| - 1] < LOGIN_WINDOW then older + [ts[|ts| - 1]] else older
  }

  function Known(m: map<string, seq<Time>>, ip: string): seq<Time> {
    if ip in m then m[ip] else []
  }

  predicate Allows(m: map<string, seq<Time>>, a: Attempt) {
    |Recent(Known(m, a.ip), a.now)| < LOGIN_ATTEMPTS
  }

  function After(m: map<string, seq<Time>>, a: Attempt): map<string, seq<Time>> {
    var recent := Recent(Known(m, a.ip), a.now);
    m[a.ip := if Allows(m, a) then recent + [a.now] else recent]
  }

  class Sessions {
    var attempts: map<string, seq<Time>>

    constructor ()
      ensures attempts == map[]
    {
      attempts := map[];
    }

    method AllowAttempt(a: Attempt) returns (ok: bool)
      modifies this
      ensures ok == Allows(old(attempts), a) && attempts == After(old(attempts), a)
    {
      var recent: seq<Time> := [];
      var known := Known(attempts, a.ip);
      var i := 0;
      while i < |known|
        invariant 0 <= i <= |known|
        invariant recent == Recent(known[..i], a.now)
      {
        if a.now - known[i] < LOGIN_WINDOW {
          recent := recent + [known[i]];
        }
        assert known[..i + 1][..i] == known[..i];
        i := i + 1;
      }
      assert known[..i] == known;
      if |recent| >= LOGIN_ATTEMPTS {
        attempts := attempts[a.ip := recent];
        return false;
      }
      attempts := attempts[a.ip := recent + [a.now]];
      return true;
    }
  }

  // ----- Whole histories

  function Attempts(xs: seq<Attempt>, n: nat): map<string, seq<Time>>
    requires n <= |xs|
  {
    if n == 0 then map[] else After(Attempts(xs, n - 1), xs[n - 1])
  }

  predicate Ok(xs: seq<Attempt>, n: nat)
    requires n < |xs|
  {
    Allows(Attempts(xs, n), xs[n])
  }

  /** Every attempt of an address that was allowed among the first n, oldest first. */
  function AllAllowed(xs: seq<Attempt>, n: nat, ip: string): seq<Time>
    requires n <= |xs|
  {
    if n == 0 then []
    else if xs[n - 1].ip == ip && Ok(xs, n - 1) then AllAllowed(xs, n - 1, ip) + [xs[n - 1].now]
    else AllAllowed(xs, n - 1, ip)
  }

  /** Attempts are handled out of order by at most the skew. */
  predicate OutBy(xs: seq<Attempt>, skew: nat) {
    forall i, j | 0 <= i < j < |xs| :: xs[i].now <= xs[j].now + skew
  }

  /** Attempts are handled in the order of their times. */
  predicate ClockOrder(xs: seq<Attempt>) {
    OutBy(xs, 0)
  }

  predicate Sorted(ts: seq<Time>) {
    forall i, j | 0 <= i < j < |ts| :: ts[i] <= ts[j]
  }

  lemma RecentOfOneMore(ts: seq<Time>, t: Time, now: Time)
    ensures Recent(ts + [t], now) == if now - t < LOGIN_WINDOW then Recent(ts, now) + [t] else Recent(ts, now)
  {
  }

  /** Pruning in two steps is pruning once. */
  lemma {:induction false} RecentOfRecent(ts: seq<Time>, earlier: Time, now: Time)
    requires earlier <= now
    ensures Recent(Recent(ts, earlier), now) == Recent(ts, now)
  {
    if ts != [] {
      var n := |ts| - 1;
      RecentOfRecent(ts[..n], earlier, now);
      RecentOfOneMore(Recent(ts[..n], earlier), ts[n], now);
    }
  }

  lemma {:induction false} AllowedAreSorted(xs: seq<Attempt>, n: nat, ip: string)
    requires ClockOrder(xs) && n <= |xs|
    ensures Sorted(AllAllowed(xs, n, ip))
    ensures forall t, i | t in AllAllowed(xs, n, ip) && n <= i < |xs| :: t <= xs[i].now
  {
    if n > 0 {
      AllowedAreSorted(xs, n - 1, ip);
      var all := AllAllowed(xs, n - 1, ip);
      forall i | 0 <= i < |all| ensures all[i] <= xs[n - 1].now { assert all[i] in all; }
    }
  }

  /**
    The pruned list of an address says exactly which allowed attempts are still inside a window that
    ends no earlier than any of them, in whatever order they were handled.
  */
  lemma {:induction false} ListIsRecentAllowed(xs: seq<Attempt>, n: nat, ip: string, now: Time)
    requires n <= |xs| && forall i | 0 <= i < n && xs[i].ip == ip :: xs[i].now <= now
    ensures Recent(Known(Attempts(xs, n), ip), now) == Recent(AllAllowed(xs, n, ip), now)
  {
    if n > 0 {
      ListIsRecentAllowed(xs, n - 1, ip, now);
      if xs[n - 1].ip == ip {
        OneMoreAttempt(Known(Attempts(xs, n - 1), ip), AllAllowed(xs, n - 1, ip), xs[n - 1].now, now);
      } else {
        assert Known(Attempts(xs, n), ip) == Known(Attempts(xs, n - 1), ip);
      }
    }
  }

  lemma OneMoreAttempt(known: seq<Time>, all: seq<Time>, t: Time, now: Time)
    requires t <= now && Recent(known, now) == Recent(all, now)
    ensures Recent(Recent(known, t), now) == Recent(all, now)
    ensures Recent(Recent(known, t) + [t], now) == Recent(all + [t], now)
  {
    RecentOfRecent(known, t, now);
    RecentOfOneMore(Recent(known, t), t, now);
    RecentOfOneMore(all, t, now);
  }

  /** Such an attempt is allowed exactly when fewer than five were allowed in the window that ends there. */
  lemma AllowedIffWindowHasRoom(xs: seq<Attempt>, n: nat)
    requires n < |xs| && forall i | 0 <= i < n && xs[i].ip == xs[n].ip :: xs[i].now <= xs[n].now
    ensures Ok(xs, n) <==> |Recent(AllAllowed(xs, n, xs[n].ip), xs[n].now)| < LOGIN_ATTEMPTS
  {
    ListIsRecentAllowed(xs, n, xs[n].ip, xs[n].now);
  }

  // ----- Six allowed attempts

  predicate EndsWith(l: seq<Time>, s: seq<Time>) {
    |s| <= |l| && l[|l| - |s|..] == s
  }

  predicate AllRecent(s: seq<Time>, now: Time) {
    forall i | 0 <= i < |s| :: now - s[i] < LOGIN_WINDOW
  }

  /** Pruning leaves the end of a list alone as long as all of it is inside the window. */
  lemma {:induction false} PruningKeepsEnd(l: seq<Time>, s: seq<Time>, now: Time)
    requires EndsWith(l, s) && AllRecent(s, now)
    ensures EndsWith(Recent(l, now), s)
  {
    if s != [] {
      var m, n := |l| - 1, |s| - 1;
      assert l[m] == l[|l| - |s|..][n] == s[n];
      assert l[..m][m - n..] == l[|l| - |s|..][..n] == s[..n];
      PruningKeepsEnd(l[..m], s[..n], now);
      assert s == s[..n] + [s[n]];
    }
  }

  /** One of the first n attempts came a window or more after time t, so its pruning would drop t. */
  ghost predicate Outlived(xs: seq<Attempt>, n: nat, t: Time)
    requires n <= |xs|
  {
    exists m :: 0 <= m < n && xs[m].now - t >= LOGIN_WINDOW
  }

  ghost predicate SomeOutlived(xs: seq<Attempt>, n: nat, ts: seq<Time>, j: nat)
    requires n <= |xs|
  {
    exists i :: j <= i < |ts| && Outlived(xs, n, ts[i])
  }

  /** The allowed attempts from the j-th on are the end of the list, unless one of them was outlived. */
  lemma {:induction false} KeptOrOutlived(xs: seq<Attempt>, n: nat, ip: string, j: nat)
    requires n <= |xs| && j <= |AllAllowed(xs, n, ip)|
    ensures SomeOutlived(xs, n, AllAllowed(xs, n, ip), j) || EndsWith(Known(Attempts(xs, n), ip), AllAllowed(xs, n, ip)[j..])
  {
    if n > 0 {
      var before, x := AllAllowed(xs, n - 1, ip), xs[n - 1];
      var known := Known(Attempts(xs, n - 1), ip);
      if j <= |before| {
        KeptOrOutlived(xs, n - 1, ip, j);
        if SomeOutlived(xs, n - 1, before, j) {
          StaysOutlived(xs, n, ip, j);
        } else if x.ip == ip {
          EndAfterAttempt(xs, n, ip, j, known, before);
        } else {
          assert Known(Attempts(xs, n), ip) == known;
        }
      }
    }
  }

  lemma StaysOutlived(xs: seq<Attempt>, n: nat, ip: string, j: nat)
    requires 0 < n <= |xs| && SomeOutlived(xs, n - 1, AllAllowed(xs, n - 1, ip), j)
    ensures SomeOutlived(xs, n, AllAllowed(xs, n, ip), j)
  {
    hide Ok;
    var before, all := AllAllowed(xs, n - 1, ip), AllAllowed(xs, n, ip);
    var i :| j <= i < |before| && Outlived(xs, n - 1, before[i]);
    assert all[i] == before[i] && Outlived(xs, n, all[i]);
  }

  /** What one more attempt does to the list of its address and to the allowed attempts. */
  lemma AfterAttempt(xs: seq<Attempt>, n: nat)
    requires n < |xs|
    ensures var ip, recent := xs[n].ip, Recent(Known(Attempts(xs, n), xs[n].ip), xs[n].now);
      if |recent| < LOGIN_ATTEMPTS then
        && Known(Attempts(xs, n + 1), ip) == recent + [xs[n].now]
        && AllAllowed(xs, n + 1, ip) == AllAllowed(xs, n, ip) + [xs[n].now]
      else Known(Attempts(xs, n + 1), ip) == recent && AllAllowed(xs, n + 1, ip) == AllAllowed(xs, n, ip)
  {
    hide Recent;
  }

  lemma EndGrows(l: seq<Time>, ts: seq<Time>, j: nat, t: Time)
    requires j <= |ts| && EndsWith(l, ts[j..])
    ensures EndsWith(l + [t], (ts + [t])[j..])
  {
    assert (ts + [t])[j..] == ts[j..] + [t];
  }

  lemma EndAfterAttempt(xs: seq<Attempt>, n: nat, ip: string, j: nat, known: seq<Time>, before: seq<Time>)
    requires 0 < n <= |xs| && xs[n - 1].ip == ip && known == Known(Attempts(xs, n - 1), ip)
    requires before == AllAllowed(xs, n - 1, ip) && j <= |before| && EndsWith(known, before[j..])
    ensures SomeOutlived(xs, n, AllAllowed(xs, n, ip), j) || EndsWith(Known(Attempts(xs, n), ip), AllAllowed(xs, n, ip)[j..])
  {
    hide Attempts, AllAllowed, Recent, EndsWith;
    AfterAttempt(xs, n - 1);
    var t, all := xs[n - 1].now, AllAllowed(xs, n, ip);
    if AllRecent(before[j..], t) {
      PruningKeepsEnd(known, before[j..], t);
      EndGrows(Recent(known, t), before, j, t);
    } else {
      var i :| 0 <= i < |before[j..]| && t - before[j..][i] >= LOGIN_WINDOW;
      assert all[j + i] == before[j..][i] && Outlived(xs, n, all[j + i]);
    }
  }

  /** One of the five allowed attempts before lies at least a window, less the skew, back. */
  ghost predicate Spaced(ts: seq<Time>, i: nat, span: int)
    requires i + LOGIN_ATTEMPTS < |ts|
  {
    exists k :: i <= k < i + LOGIN_ATTEMPTS && ts[i + LOGIN_ATTEMPTS] - ts[k] >= span
  }

  lemma SixthIsSpaced(xs: seq<Attempt>, skew: nat, n: nat, i: nat)
    requires OutBy(xs, skew) && n < |xs| && Ok(xs, n) && |AllAllowed(xs, n, xs[n].ip)| == i + LOGIN_ATTEMPTS
    ensures Spaced(AllAllowed(xs, n, xs[n].ip) + [xs[n].now], i, LOGIN_WINDOW - skew)
  {
    var all, x := AllAllowed(xs, n, xs[n].ip), xs[n];
    KeptOrOutlived(xs, n, x.ip, i);
    if SomeOutlived(xs, n, all, i) {
      var k :| i <= k < |all| && Outlived(xs, n, all[k]);
      assert (all + [x.now])[k] == all[k];
    } else {
      var last := all[i..];
      if AllRecent(last, x.now) { PruningKeepsEnd(Known(Attempts(xs, n), x.ip), last, x.now); }
      var k :| 0 <= k < |last| && x.now - last[k] >= LOGIN_WINDOW;
      assert (all + [x.now])[i + k] == last[k];
    }
  }

  /**
    With attempts out of order by at most the skew: of any six that were allowed to one address one
    after the other, the last comes at least sixty seconds less the skew after one of the others.
  */
  lemma {:induction false} SixAreSpaced(xs: seq<Attempt>, skew: nat, n: nat, ip: string, i: nat)
    requires OutBy(xs, skew) && n <= |xs| && i + LOGIN_ATTEMPTS < |AllAllowed(xs, n, ip)|
    ensures Spaced(AllAllowed(xs, n, ip), i, LOGIN_WINDOW - skew)
  {
    hide Ok;
    var before := AllAllowed(xs, n - 1, ip);
    if i + LOGIN_ATTEMPTS < |before| {
      SixAreSpaced(xs, skew, n - 1, ip, i);
      var k :| i <= k < i + LOGIN_ATTEMPTS && before[i + LOGIN_ATTEMPTS] - before[k] >= LOGIN_WINDOW - skew;
      assert AllAllowed(xs, n, ip)[k] == before[k];
    } else {
      assert xs[n - 1].ip == ip && |before| == i + LOGIN_ATTEMPTS;
      SixthIsSpaced(xs, skew, n - 1, i);
    }
  }

  /**
    In clock order any six attempts allowed to one address span at least sixty seconds, so no window
    of sixty seconds holds more than five.
  */
  lemma AnyWindowHoldsAtMostFive(xs: seq<Attempt>, n: nat, ip: string, i: nat)
    requires ClockOrder(xs) && n <= |xs| && i + LOGIN_ATTEMPTS < |AllAllowed(xs, n, ip)|
    ensures AllAllowed(xs, n, ip)[i + LOGIN_ATTEMPTS] - AllAllowed(xs, n, ip)[i] >= LOGIN_WINDOW
  {
    hide AllAllowed;
    SixAreSpaced(xs, 0, n, ip, i);
    AllowedAreSorted(xs, n, ip);
  }

  // ----- Exactly in clock order

  /** Whatever order within the skew: any six attempts allowed to an address span at least sixty seconds. */
  ghost predicate Always(skew: nat) {
    forall xs: seq<Attempt>, ip, i: nat {:trigger AllAllowed(xs, |xs|, ip)[i]} |
      OutBy(xs, skew) && i + LOGIN_ATTEMPTS < |AllAllowed(xs, |xs|, ip)| ::
      AllAllowed(xs, |xs|, ip)[i + LOGIN_ATTEMPTS] - AllAllowed(xs, |xs|, ip)[i] >= LOGIN_WINDOW
  }

  /** n attempts of one address at time 0. */
  function Burst(n: nat): seq<Attempt> {
    seq(n, _ => Attempt("ip", 0))
  }

  function Zeros(n: nat): seq<Time> {
    seq(n, _ => 0)
  }

  lemma {:induction false} ZerosAreRecent(n: nat, now: Time)
    ensures Recent(Zeros(n), now) == if now < LOGIN_WINDOW then Zeros(n) else []
  {
    if n > 0 {
      ZerosAreRecent(n - 1, now);
      assert Zeros(n)[..n - 1] == Zeros(n - 1);
    }
  }

  lemma {:induction false} BurstIsAllowed(xs: seq<Attempt>, n: nat)
    requires n <= LOGIN_ATTEMPTS && n <= |xs| && xs[..n] == Burst(n)
    ensures Known(Attempts(xs, n), "ip") == AllAllowed(xs, n, "ip") == Zeros(n)
  {
    hide Attempts, AllAllowed, Recent, Known;
    if n == 0 {
      NothingAllowedYet(xs);
    } else {
      assert xs[..n - 1] == Burst(n)[..n - 1] == Burst(n - 1);
      BurstIsAllowed(xs, n - 1);
      ZerosAreRecent(n - 1, 0);
      assert xs[n - 1] == xs[..n][n - 1] == Attempt("ip", 0);
      AfterAttempt(xs, n - 1);
      assert Zeros(n) == Zeros(n - 1) + [0];
    }
  }

  lemma NothingAllowedYet(xs: seq<Attempt>)
    ensures Known(Attempts(xs, 0), "ip") == AllAllowed(xs, 0, "ip") == Zeros(0)
  {
  }

  lemma OneIsRecent(t: Time, now: Time)
    requires now - t < LOGIN_WINDOW
    ensures Recent([t], now) == [t]
  {
    assert [t][..0] == [];
  }

  /**
    Five attempts at time 0, one at 60 that prunes them all, and then one that read the clock `skew`
    seconds before it but waited longer for the mutex: it is allowed too early.
  */
  lemma LateMutexBreaksWindow(skew: nat) returns (xs: seq<Attempt>)
    requires skew > 0
    ensures |xs| == 7 && OutBy(xs, skew) && |AllAllowed(xs, |xs|, "ip")| == 7
    ensures AllAllowed(xs, |xs|, "ip")[6] - AllAllowed(xs, |xs|, "ip")[1] < LOGIN_WINDOW
  {
    hide Attempts, AllAllowed, Recent;
    xs := Burst(5) + [Attempt("ip", 60), Attempt("ip", 60 - skew)];
    assert xs[..5] == Burst(5);
    BurstIsAllowed(xs, 5);
    ZerosAreRecent(5, 60);
    AfterAttempt(xs, 5);
    assert Known(Attempts(xs, 6), "ip") == [60];
    OneIsRecent(60, 60 - skew);
    AfterAttempt(xs, 6);
  }

  /** So the promise holds if and only if attempts are handled in the order of their times. */
  lemma WindowHoldsExactlyInOrder(skew: nat)
    ensures Always(skew) <==> skew == 0
  {
    hide AllAllowed;
    if skew == 0 {
      forall xs: seq<Attempt>, ip, i: nat | OutBy(xs, 0) && i + LOGIN_ATTEMPTS < |AllAllowed(xs, |xs|, ip)|
        ensures AllAllowed(xs, |xs|, ip)[i + LOGIN_ATTEMPTS] - AllAllowed(xs, |xs|, ip)[i] >= LOGIN_WINDOW
      {
        AnyWindowHoldsAtMostFive(xs, |xs|, ip, i);
      }
    } else {
      var xs := LateMutexBreaksWindow(skew);
      assert !(AllAllowed(xs, |xs|, "ip")[1 + LOGIN_ATTEMPTS] - AllAllowed(xs, |xs|, "ip")[1] >= LOGIN_WINDOW);
    }
  }
}
