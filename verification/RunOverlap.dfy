/**
  Exactly when RunNow keeps to one run at a time (internal/pipeline/schedule.go).

  RunExclusion.AtMostOneRunHasWork has three premises. Here each can be in force or not. No two
  runs have work at once on any behaviour if and only if all three are.
*/
module RunOverlap {
  import opened Prelude
  import opened JobTable
  import opened RunKeys
  import opened RunProtocol
  import opened RunTheorems
  import opened RunExclusion
  import opened RunLimits
  import Q = QueueProtocol

  ghost predicate Overlap(s: State, r1: nat, r2: nat) {
    r1 != r2 && Open(s, r1) && HasJob(s, r1) && Open(s, r2) && HasJob(s, r2)
  }

  lemma JobsOverlap(s: State, r1: nat, k1: Slot, r2: nat, k2: Slot)
    requires r1 != r2 && Open(s, r1) && Open(s, r2) && k1 in s.q.table && k2 in s.q.table
    requires RunJobKind(k1.kind) && OfRun(k1, r1) && s.q.table[k1].status == Queued
    requires RunJobKind(k2.kind) && OfRun(k2, r2) && s.q.table[k2].status == Queued
    ensures Overlap(s, r1, r2)
  {
    assert Outstanding(s.q.table[k1]) && Outstanding(s.q.table[k2]);
  }

  /**
    Nightly does not take the lock of RunNow: from every state two nightly runs can have work at
    once, with every handler inside its lease and every restart alone.
  */
  lemma NightlyRunsCanOverlap(f: Premises, c: Config, s: State) returns (t: State)
    requires c.Valid() && !f.runNowOnly
    ensures Leads(f, c, s, t) && Overlap(t, s.nextRun, s.nextRun + 1)
    ensures t.runs[s.nextRun].kind == Nightly && t.runs[s.nextRun + 1].kind == Nightly
  {
    hide Enabled, Around, Q.Apply, Overlap;
    Stay(f, c, s);
    var i := FreshId(s.calls);
    t := StartsNightly(f, c, s, s, i);
    var j := FreshId(t.calls);
    t := StartsNightly(f, c, s, t, j);
    var k1, k2;
    t, k1 := Queues(f, c, s, t, s.nextRun, i);
    t, k2 := Queues(f, c, s, t, s.nextRun + 1, j);
    JobsOverlap(t, s.nextRun, k1, s.nextRun + 1, k2);
  }

  // The other two assumptions. Both behaviours begin with a handler at work for run 1 and end
  // with RunNow starting run 2 while that handler queues for run 1. No nightly run is started.

  ghost const EMPTY := State(Q.State(map[], [], 1, 0, map[], {}), map[], 1, Unlocked, map[], {}, {})

  ghost predicate Idle(s: State) {
    s.lock == Unlocked && s.calls == map[] && s.q.pending == map[] && s.interrupted == {}
  }

  /** RunNow finds no run with a job and starts the next one. */
  lemma RunNowStarts(f: Premises, c: Config, s: State, t: State) returns (u: State)
    requires c.Valid() && Leads(f, c, s, t) && t.lock == Unlocked && 0 !in t.calls
    requires forall k | k in t.q.table :: !Outstanding(t.q.table[k])
    ensures Leads(f, c, s, u) && u == Started(t, 0, Manual).(lock := Queueing(0))
  {
    hide Q.Apply;
    var locked := Step(f, c, s, t, TryLock);
    assert locked == t.(lock := Locked);
    var cleared := Looks(f, c, s, locked);
    u := Step(f, c, s, cleared, StartManual(0));
  }

  lemma Looks(f: Premises, c: Config, s: State, t: State) returns (u: State)
    requires c.Valid() && Leads(f, c, s, t) && t.lock == Locked
    requires forall k | k in t.q.table :: !Outstanding(t.q.table[k])
    ensures Leads(f, c, s, u) && u == t.(lock := Cleared)
  {
    hide Q.Apply;
    u := Step(f, c, s, t, Look);
  }

  lemma Closes(f: Premises, c: Config, s: State, t: State, id: nat) returns (u: State)
    requires c.Valid() && Leads(f, c, s, t) && id in t.calls && t.lock == Queueing(id)
    ensures Leads(f, c, s, u) && u == t.(calls := t.calls - {id}, lock := Unlocked)
  {
    hide Q.Apply;
    u := Step(f, c, s, t, CloseCall(id));
  }

  /** Worker 0 takes the one job there is and starts its handler. */
  lemma StartsHandler(f: Premises, c: Config, s: State, t: State, k: Slot) returns (u: State, h: Handle)
    requires c.Valid() && Leads(f, c, s, t) && t.active == {} && t.q.pending == map[] && t.q.table.Keys == {k}
    requires t.q.table[k].status == Queued && t.q.table[k].runAfter <= t.q.clock
    ensures Leads(f, c, s, u) && u.runs == t.runs && u.nextRun == t.nextRun && u.calls == t.calls && u.lock == t.lock
    ensures u.interrupted == t.interrupted && u.q.pending == map[] && u.q.clock == t.q.clock
    ensures h in u.active && h.slot == k
    ensures u.q.table == map[k := TakenRow(t.q.table[k], t.q.clock, c)]
  {
    var v := Looking(f, c, s, t, 0);
    assert v.q.table == t.q.table;
    u := Step(f, c, s, v, Claim(0, Some(k)));
    h := HandleOf(k, TakenRow(v.q.table[k], v.q.pending[0].now, c), c);
    assert u.q.pending == map[];
  }

  /** A worker reads the clock and sweeps. */
  lemma Looking(f: Premises, c: Config, s: State, t: State, w: nat) returns (u: State)
    requires c.Valid() && Leads(f, c, s, t) && w !in t.q.pending && (f.inLease ==> t.active == {})
    ensures Leads(f, c, s, u) && u == t.(q := u.q) && u.q.clock == t.q.clock
    ensures u.q.table == Swept(t.q.table, t.q.clock, c)
    ensures u.q.pending == t.q.pending[w := Q.Claiming(t.q.clock, true)]
  {
    var v := Step(f, c, s, t, Queue(Q.ReadClock(w)));
    u := Step(f, c, s, v, Queue(Q.Sweep(w)));
  }

  /** Run 1 has one job, and a handler works on it. */
  lemma HandlerAtWork(f: Premises, c: Config) returns (t: State, h: Handle)
    requires c.Valid()
    ensures Leads(f, c, EMPTY, t) && Idle(t) && t.runs == map[1 := Run(Manual, None, Unended, [])] && t.nextRun == 2
    ensures h in t.active && OfRun(h.slot, 1) && RunJobKind(h.slot.kind) && t.q.table.Keys == {h.slot} && t.q.clock == 0
    ensures var r := t.q.table[h.slot];
      r.status == Running && r.lockedUntil == Some(c.lease) && r.attempts == 1 && r.maxAttempts == Some(1)
  {
    hide Enabled, Around, Q.Apply;
    Stay(f, c, EMPTY);
    t := RunNowStarts(f, c, EMPTY, EMPTY);
    var k;
    t, k := Queues(f, c, EMPTY, t, 1, 0);
    t := Closes(f, c, EMPTY, t, 0);
    t, h := StartsHandler(f, c, EMPTY, t, k);
  }

  /** The handler's job ended without it. RunNow starts run 2, and then the handler queues for run 1. */
  lemma HandlerQueuesBesideRunTwo(f: Premises, c: Config, s: State, t: State, h: Handle) returns (u: State)
    requires c.Valid() && Leads(f, c, s, t) && t.lock == Unlocked && t.calls == map[] && h in t.active && OfRun(h.slot, 1)
    requires t.runs == map[1 := Run(Manual, None, Unended, [])] && t.nextRun == 2
    requires forall k | k in t.q.table :: !Outstanding(t.q.table[k])
    ensures Leads(f, c, s, u) && Overlap(u, 1, 2) && forall r | r in u.runs :: u.runs[r].kind == Manual
  {
    hide Enabled, Around, Q.Apply, Overlap;
    u := RunNowStarts(f, c, s, t);
    var k1, k2;
    u, k2 := Queues(f, c, s, u, 2, 0);
    u := Enters(f, c, s, u, h, 1, 1);
    u, k1 := Queues(f, c, s, u, 1, 1);
    JobsOverlap(u, 1, k1, 2, k2);
  }

  /** The handler enters enqueueReads, and the run has not ended. */
  lemma Enters(f: Premises, c: Config, s: State, t: State, h: Handle, r: nat, id: nat) returns (u: State)
    requires c.Valid() && Leads(f, c, s, t) && id !in t.calls && h in t.active && OfRun(h.slot, r)
    requires r in t.runs && t.runs[r].ended == Unended
    ensures Leads(f, c, s, u) && u == t.(calls := t.calls[id := Call(r, Some(h), Passed)])
  {
    hide Q.Apply;
    var v := Step(f, c, s, t, OpenCall(id, h, r));
    assert v == t.(calls := t.calls[id := Call(r, Some(h), Unchecked)]);
    u := Step(f, c, s, v, LookAtEnded(id));
  }

  /**
    A handler that outlives its lease: the sweep of another worker ends its job, and it queues all
    the same. Runs are started through RunNow alone, and there is no restart.
  */
  lemma SlowHandlerBreaksExclusion(f: Premises, c: Config) returns (t: State)
    requires c.Valid() && !f.inLease
    ensures Init(EMPTY) && Leads(f, c, EMPTY, t) && Overlap(t, 1, 2) && forall r | r in t.runs :: t.runs[r].kind == Manual
  {
    hide Enabled, Around, Q.Apply, Overlap;
    var h;
    t, h := HandlerAtWork(f, c);
    t := Waits(f, c, EMPTY, t, c.lease + 1);
    assert Spent(t.q.table[h.slot], c.lease + 1, c);
    t := Looking(f, c, EMPTY, t, 1);
    t := HandlerQueuesBesideRunTwo(f, c, EMPTY, t, h);
  }

  lemma Waits(f: Premises, c: Config, s: State, t: State, to: Time) returns (u: State)
    requires c.Valid() && Leads(f, c, s, t) && to >= t.q.clock
    ensures Leads(f, c, s, u) && u == t.(q := t.q.(clock := to))
  {
    u := Step(f, c, s, t, Queue(Q.Tick(to)));
  }

  /**
    A restart clean-up beside a process that still works: its first statement ends the job of the
    working handler. Runs are started through RunNow alone, and the handler is inside its lease.
  */
  lemma RestartBesideWorkerBreaksExclusion(f: Premises, c: Config) returns (t: State)
    requires c.Valid() && !f.restartAlone
    ensures Init(EMPTY) && Leads(f, c, EMPTY, t) && Overlap(t, 1, 2) && forall r | r in t.runs :: t.runs[r].kind == Manual
  {
    hide Enabled, Around, Q.Apply, Overlap;
    var h;
    t, h := HandlerAtWork(f, c);
    t := Interrupts(f, c, EMPTY, t, h.slot);
    t := HandlerQueuesBesideRunTwo(f, c, EMPTY, t, h);
  }

  lemma Interrupts(f: Premises, c: Config, s: State, t: State, k: Slot) returns (u: State)
    requires c.Valid() && !f.restartAlone && Leads(f, c, s, t) && t.q.table.Keys == {k} && RunJobKind(k.kind) && IsRunKey(k.key)
    ensures Leads(f, c, s, u) && u == t.(q := u.q, interrupted := u.interrupted)
    ensures u.q.table.Keys == {k} && !Outstanding(u.q.table[k])
  {
    u := Step(f, c, s, t, InterruptJobs);
    assert k in RunJobs(t);
  }

  // ----- The exact condition

  /** No behaviour from the start, under the premises, has two runs with work at once. */
  ghost predicate Always(f: Premises, c: Config)
    requires c.Valid()
  {
    forall s, ss, acts, r1, r2 {:trigger Follows(f, c, s, ss, acts), Overlap(ss[|acts|], r1, r2)} |
      Init(s) && Follows(f, c, s, ss, acts) :: !Overlap(ss[|acts|], r1, r2)
  }

  lemma OverlapRefutes(f: Premises, c: Config, s: State, t: State, r1: nat, r2: nat)
    requires c.Valid() && Init(s) && Leads(f, c, s, t) && Overlap(t, r1, r2)
    ensures !Always(f, c)
  {
    hide Enabled, Apply, Meets, Overlap;
    var ss, acts :| Follows(f, c, s, ss, acts) && ss[|acts|] == t;
  }

  lemma NoOverlap(c: Config, s: State, ss: seq<State>, acts: seq<Action>, r1: nat, r2: nat)
    requires c.Valid() && Init(s) && Follows(ALL, c, s, ss, acts)
    ensures !Overlap(ss[|acts|], r1, r2)
  {
    hide Enabled, Apply, Meets, Init;
    forall i {:trigger acts[i]} | 0 <= i < |acts| ensures Assumed(ss[i], acts[i]) {
      assert Meets(ALL, ss[i], acts[i]);
    }
    if Overlap(ss[|acts|], r1, r2) {
      AtMostOneRunHasWork(c, ss, acts, |acts|, r1, r2);
    }
  }

  /**
    For every configuration: no two runs have work at once on any behaviour if and only if runs are
    started through RunNow alone, handlers finish inside their lease, and restarts are alone.
  */
  lemma ExclusionHoldsExactlyWhen(f: Premises, c: Config)
    requires c.Valid()
    ensures Always(f, c) <==> f == ALL
  {
    hide Enabled, Apply, Meets, Overlap;
    if f == ALL {
      forall s, ss, acts, r1, r2 | Init(s) && Follows(f, c, s, ss, acts) ensures !Overlap(ss[|acts|], r1, r2) {
        NoOverlap(c, s, ss, acts, r1, r2);
      }
    } else if !f.runNowOnly {
      var t := NightlyRunsCanOverlap(f, c, EMPTY);
      OverlapRefutes(f, c, EMPTY, t, 1, 2);
    } else if !f.inLease {
      var t := SlowHandlerBreaksExclusion(f, c);
      OverlapRefutes(f, c, EMPTY, t, 1, 2);
    } else {
      var t := RestartBesideWorkerBreaksExclusion(f, c);
      OverlapRefutes(f, c, EMPTY, t, 1, 2);
    }
  }
}
