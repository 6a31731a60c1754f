/**
  Exactly when the attempt limit holds (internal/queue/queue.go).

  QueueProtocol.AttemptsStayWithinLimit has two premises. Here each is a parameter: how late a
  Claim may take its job, and whether keys keep their attempts. The limit holds on every
  behaviour if and only if the delay is at most a lease and keys keep their attempts.
*/
module QueueLimits {
  import opened Prelude
  import opened JobTable
  import opened QueueProtocol

  /** A step under the premises that are in force. */
  ghost predicate Meets(c: Config, delay: int, keep: bool, s: State, a: Action)
    requires c.Valid() && Enabled(s, a)
  {
    Prompt(s, a, delay) && (keep ==> KeepsAttempts(c, s, a))
  }

  ghost predicate Follows(c: Config, delay: int, keep: bool, ss: seq<State>, acts: seq<Action>)
    requires c.Valid()
  {
    Behaviour(c, ss, acts) && forall i {:trigger acts[i]} | 0 <= i < |acts| :: Meets(c, delay, keep, ss[i], acts[i])
  }

  /** Every key keeps to its limit. */
  ghost predicate Bounded(c: Config, s: State)
    requires c.Valid()
  {
    forall k :: KeyBounded(c, s, k)
  }

  ghost predicate Always(c: Config, delay: int, keep: bool)
    requires c.Valid()
  {
    forall ss, acts | Follows(c, delay, keep, ss, acts) :: Bounded(c, ss[|acts|])
  }

  // ----- Behaviours, step by step

  ghost predicate Reachable(c: Config, delay: int, keep: bool, s: State)
    requires c.Valid()
  {
    exists ss, acts :: Follows(c, delay, keep, ss, acts) && ss[|acts|] == s
  }

  ghost const START := State(map[], [], 1, 0, map[], {})

  lemma StartIsReachable(c: Config, delay: int, keep: bool)
    requires c.Valid()
    ensures Reachable(c, delay, keep, START)
  {
    assert Follows(c, delay, keep, [START], []) && [START][0] == START;
  }

  lemma Step(c: Config, delay: int, keep: bool, s: State, a: Action) returns (s': State)
    requires c.Valid() && Reachable(c, delay, keep, s) && Enabled(s, a) && Meets(c, delay, keep, s, a)
    ensures s' == Apply(c, s, a) && Reachable(c, delay, keep, s')
  {
    hide Enabled, Apply, Meets;
    s' := Apply(c, s, a);
    var ss, acts :| Follows(c, delay, keep, ss, acts) && ss[|acts|] == s;
    var ss', acts' := ss + [s'], acts + [a];
    assert Follows(c, delay, keep, ss', acts') && ss'[|acts'|] == s';
  }

  const JOB := Slot("check_source", "run:1:source:1")

  /** A table with the one job in it. */
  function Only(r: Row): Table {
    map[JOB := r]
  }

  function Fresh(life: nat, max: nat): Row
    requires max > 0
  {
    Row(1, life, "{}", Queued, 0, Some(max), 0, None, "", 0)
  }

  /** The job is in the queue for the first time. */
  ghost function Waiting(max: nat): State
    requires max > 0
  {
    State(Only(Fresh(0, max)), [Life(JOB, 1, max, [], 0)], 2, 0, map[], {})
  }

  lemma FirstEnqueue(c: Config, delay: int, keep: bool, max: nat)
    requires c.Valid() && max > 0
    ensures Reachable(c, delay, keep, Waiting(max))
  {
    StartIsReachable(c, delay, keep);
    var s := Step(c, delay, keep, START, Enqueue(JOB, "{}", None, max));
    assert s == Waiting(max);
  }

  /** A worker reads the clock and sweeps a table that has nothing to sweep. */
  lemma Begin(c: Config, delay: int, keep: bool, s: State, w: nat) returns (s': State)
    requires c.Valid() && Reachable(c, delay, keep, s) && w !in s.pending && (forall k | k in s.table :: s.table[k].status == Queued)
    ensures s' == s.(pending := s.pending[w := Claiming(s.clock, true)]) && Reachable(c, delay, keep, s')
  {
    s' := Step(c, delay, keep, s, ReadClock(w));
    s' := Step(c, delay, keep, s', Sweep(w));
    assert Swept(s.table, s.clock, c) == s.table;
    assert Recorded(s.lives, s.table, s.table) == s.lives;
  }

  /** A worker takes the one job. */
  lemma TakeJob(c: Config, delay: int, keep: bool, s: State, w: nat, r: Row) returns (s': State)
    requires c.Valid() && Reachable(c, delay, keep, s) && s.table == Only(r) && r.life < |s.lives|
    requires w in s.pending && s.pending[w].swept && Due(r, s.pending[w].now)
    requires forall v | v in s.pending && s.pending[v].swept :: s.pending[v].now <= s.pending[w].now + delay
    ensures Reachable(c, delay, keep, s')
    ensures var r' := TakenRow(r, s.pending[w].now, c);
      s' == s.(
        table := Only(r'), pending := s.pending - {w}, issued := s.issued + {HandleOf(JOB, r', c)},
        lives := s.lives[r.life := s.lives[r.life].(claims := s.lives[r.life].claims + [r'.attempts])])
  {
    assert s.table[JOB] == r && Taken(s.table, JOB, s.pending[w].now, c) == Only(TakenRow(r, s.pending[w].now, c));
    s' := Step(c, delay, keep, s, Take(w, Some(JOB)));
  }

  // ----- A Claim that is too slow

  /**
    Any delay longer than a lease breaks the limit although keys keep their attempts. Worker 1
    reads the clock and stalls. Worker 2 sweeps, worker 1 then sets a lease that is already over,
    and worker 2 takes the job, which has one attempt, a second time.
  */
  lemma SlowClaimBreaksLimit(c: Config, delay: int, keep: bool) returns (s: State)
    requires c.Valid() && delay > c.lease
    ensures Reachable(c, delay, keep, s) && !Bounded(c, s)
    ensures JOB in s.table && s.table[JOB].attempts == 2 && Limit(s.table[JOB], c) == 1
  {
    hide Enabled, Apply;
    FirstEnqueue(c, delay, keep, 1);
    s := Begin(c, delay, keep, Waiting(1), 1);
    s := Passes(c, delay, keep, s, c.lease + 1);
    s := Begin(c, delay, keep, s, 2);
    s := TakeJob(c, delay, keep, s, 1, Fresh(0, 1));
    s := TakeJob(c, delay, keep, s, 2, TakenRow(Fresh(0, 1), 0, c));
    assert !KeyBounded(c, s, JOB);
  }

  lemma Passes(c: Config, delay: int, keep: bool, s: State, to: Time) returns (s': State)
    requires c.Valid() && Reachable(c, delay, keep, s)
    ensures s' == s.(clock := to) && Reachable(c, delay, keep, s')
  {
    s' := Step(c, delay, keep, s, Tick(to));
  }

  // ----- A key that changes its attempts

  /** The app restarts while the job runs, and the next run queues the key with one attempt. */
  lemma Requeue(c: Config, delay: int, s: State) returns (s': State)
    requires c.Valid() && Reachable(c, delay, false, s) && |s.lives| == 1 && s.clock == 0
    requires s.table == Only(TakenRow(Fresh(0, 2), 0, c))
    ensures Reachable(c, delay, false, s') && s'.table == Only(Fresh(1, 1)) && |s'.lives| == 2
    ensures s'.issued == s.issued && s'.pending == s.pending && s'.clock == 0
  {
    s' := Step(c, delay, false, s, Interrupt({JOB}, "restart"));
    assert s'.table == Only(FailedRow(TakenRow(Fresh(0, 2), 0, c), "restart", 0));
    s' := Step(c, delay, false, s', Enqueue(JOB, "{}", None, 1));
  }

  /**
    Without any delay the limit breaks when a key may change its attempts. A handle from an
    earlier life of the key was taken when the key had two attempts. Its report matches the
    attempt number of the next life, and the old limit queues a job that has no attempt left.
    This is also why fencing holds within one life only.
  */
  lemma StaleReportReachesNextLife(c: Config, delay: int) returns (s: State, h: Handle, s': State)
    requires c.Valid() && delay >= 0
    ensures Reachable(c, delay, false, s) && h in s.issued && JOB in s.table
    ensures h.life == 0 && s.table[JOB].life == 1 && Holds(s.table, h)
    ensures s' == Apply(c, s, Fail(h, "late")) && Reachable(c, delay, false, s') && !Bounded(c, s')
    ensures JOB in s'.table && s'.table[JOB].status == Queued && s'.table[JOB].attempts == Limit(s'.table[JOB], c)
  {
    s, h := StaleHandle(c, delay);
    s' := Step(c, delay, false, s, Fail(h, "late"));
    assert !KeyBounded(c, s', JOB);
  }

  lemma StaleHandle(c: Config, delay: int) returns (s: State, h: Handle)
    requires c.Valid() && delay >= 0
    ensures Reachable(c, delay, false, s) && h in s.issued && h.slot == JOB && h.life == 0 && h.limit == 2 && h.attempt == 1
    ensures s.table == Only(TakenRow(Fresh(1, 1), 0, c)) && Holds(s.table, h)
  {
    hide Enabled, Apply;
    FirstEnqueue(c, delay, false, 2);
    s := Begin(c, delay, false, Waiting(2), 1);
    s := TakeJob(c, delay, false, s, 1, Fresh(0, 2));
    h := Handle(JOB, 1, 0, 1, 2);
    s := Requeue(c, delay, s);
    s := Begin(c, delay, false, s, 1);
    s := TakeJob(c, delay, false, s, 1, Fresh(1, 1));
  }

  // ----- The exact condition

  lemma LimitHolds(c: Config, delay: int, ss: seq<State>, acts: seq<Action>)
    requires c.Valid() && delay <= c.lease && Follows(c, delay, true, ss, acts)
    ensures Bounded(c, ss[|acts|])
  {
    hide Apply, Enabled;
    forall k ensures KeyBounded(c, ss[|acts|], k) {
      forall i {:trigger acts[i]} | 0 <= i < |acts| ensures Assumed(c, ss[i], acts[i], k) {
        assert Meets(c, delay, true, ss[i], acts[i]);
      }
      AttemptsStayWithinLimit(c, ss, acts, |acts|, k);
    }
  }

  /**
    For every configuration: rows stay within their limit on every behaviour if and only if
    Claims are late by at most a lease and keys keep their attempts.
  */
  lemma LimitHoldsExactlyWhen(c: Config, delay: int, keep: bool)
    requires c.Valid() && delay >= 0
    ensures Always(c, delay, keep) <==> delay <= c.lease && keep
  {
    hide Meets, Bounded, Apply, Enabled;
    if delay > c.lease {
      var s := SlowClaimBreaksLimit(c, delay, keep);
    } else if !keep {
      var _, _, s' := StaleReportReachesNextLife(c, delay);
    } else {
      forall ss, acts | Follows(c, delay, true, ss, acts) ensures Bounded(c, ss[|acts|]) {
        LimitHolds(c, delay, ss, acts);
      }
    }
  }
}
