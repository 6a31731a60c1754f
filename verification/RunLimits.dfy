/**
  How far stopping a run reaches (internal/pipeline/schedule.go).

  The comment on StopRun says that what is still running queues nothing more. The `ended` check
  and the Enqueue after it are two steps, so this holds exactly when no call for the run is
  between the two at that moment.
*/
module RunLimits {
  import opened Prelude
  import opened JobTable
  import opened RunKeys
  import opened RunProtocol
  import opened RunTheorems
  import opened RunExclusion
  import Q = QueueProtocol

  /** Any finite continuation of s. */
  ghost predicate Continues(c: Config, s: State, ss: seq<State>, acts: seq<Action>)
    requires c.Valid()
  {
    && |ss| == |acts| + 1 && ss[0] == s
    && forall i {:trigger acts[i]} | 0 <= i < |acts| :: Enabled(ss[i], acts[i]) && ss[i + 1] == Apply(c, ss[i], acts[i])
  }

  /** Whatever happens from s on, no job of r is ever queued. */
  ghost predicate NeverQueued(c: Config, s: State, r: nat)
    requires c.Valid()
  {
    forall ss, acts | Continues(c, s, ss, acts) :: NothingQueued(ss[|acts|], r)
  }

  lemma {:induction false} QuietOnwards(c: Config, s: State, ss: seq<State>, acts: seq<Action>, n: nat, r: nat)
    requires c.Valid() && Inv(c, s) && Quiet(s, r) && Continues(c, s, ss, acts) && n < |ss|
    ensures Inv(c, ss[n]) && Quiet(ss[n], r)
  {
    if n > 0 {
      QuietOnwards(c, s, ss, acts, n - 1, r);
      StepKeepsInv(c, ss[n - 1], acts[n - 1]);
      StepKeepsQuiet(c, ss[n - 1], acts[n - 1], r);
    }
  }

  // ----- There is always one more key

  function CheckSlot(r: nat, item: nat): Slot {
    Slot("check_source", RunKey(r, "source", item))
  }

  lemma {:induction false} CheckSlots(r: nat, n: nat) returns (slots: set<Slot>)
    ensures |slots| == n && forall k :: k in slots <==> exists i :: 0 <= i < n && k == CheckSlot(r, i)
  {
    slots := {};
    if n > 0 {
      var before := CheckSlots(r, n - 1);
      forall i | 0 <= i < n - 1 ensures CheckSlot(r, i) != CheckSlot(r, n - 1) {
        if CheckSlot(r, i) == CheckSlot(r, n - 1) { KeysDiffer(r, "source", i, n - 1); }
      }
      slots := before + {CheckSlot(r, n - 1)};
    }
  }

  lemma UnusedSlot(t: Table, r: nat) returns (k: Slot)
    ensures k !in t && k.kind == "check_source" && OfRun(k, r) && Built(k.key)
  {
    var slots := CheckSlots(r, |t.Keys| + 1);
    if slots <= t.Keys { FitsInto(slots, t.Keys); }
    k :| k in slots && k !in t.Keys;
    var i :| 0 <= i < |t.Keys| + 1 && k == CheckSlot(r, i);
    PatternPicksRun(r, r, "source", i);
  }

  lemma FitsInto(a: set<Slot>, b: set<Slot>)
    requires a <= b
    ensures |a| <= |b|
  {
    assert b == a + (b - a);
  }

  /** A call that passed the check may queue jobs of each of the three kinds. */
  lemma EveryKindCanBeQueued(c: Config, s: State, id: nat, kind: string, item: nat)
    requires c.Valid() && id in s.calls && s.calls[id].phase == Passed
    requires kind in {"check_source", "read_event", "look_up_startup"}
    ensures Enabled(s, QueueJob(id, Slot(kind, RunKey(s.calls[id].run, "source", item)), "{}"))
  {
    PatternPicksRun(s.calls[id].run, s.calls[id].run, "source", item);
  }

  /** A call that passed the check can still queue. */
  lemma PassedCallCanQueue(c: Config, s: State, r: nat, id: nat) returns (a: Action)
    requires c.Valid() && id in s.calls && s.calls[id].run == r && s.calls[id].phase == Passed
    ensures a.QueueJob? && Enabled(s, a) && !NothingQueued(Apply(c, s, a), r)
  {
    var k := UnusedSlot(s.q.table, r);
    a := QueueJob(id, k, "{}");
    assert Apply(c, s, a).q.table[k].status == Queued;
  }

  /**
    For a run that was stopped or ended by a restart, with nothing queued: no job of it is ever
    queued again, whatever happens, if and only if no call for it is between the check and the
    Enqueue now.
  */
  lemma StopReachesExactlySoFar(c: Config, s: State, r: nat)
    requires c.Valid() && Inv(c, s) && r in s.runs && (s.runs[r].ended == Stopped || s.runs[r].ended == Restarted)
    requires NothingQueued(s, r)
    ensures NeverQueued(c, s, r) <==> NobodyQueueing(s, r)
  {
    hide Inv, Enabled, Around, Q.Apply, NothingQueued;
    if NobodyQueueing(s, r) {
      forall ss, acts | Continues(c, s, ss, acts) ensures NothingQueued(ss[|acts|], r) {
        QuietOnwards(c, s, ss, acts, |acts|, r);
      }
    } else {
      var id :| id in s.calls && s.calls[id].run == r && s.calls[id].phase != Unchecked;
      var a := PassedCallCanQueue(c, s, r, id);
      var ss, acts := [s, Apply(c, s, a)], [a];
      assert Continues(c, s, ss, acts) && !NothingQueued(ss[|acts|], r);
    }
  }

  // ----- Behaviours, step by step

  /** A continuation of s under the premises. */
  ghost predicate Follows(f: Premises, c: Config, s: State, ss: seq<State>, acts: seq<Action>)
    requires c.Valid()
  {
    Continues(c, s, ss, acts) && forall i {:trigger acts[i]} | 0 <= i < |acts| :: Meets(f, ss[i], acts[i])
  }

  /** Some behaviour under the premises leads from s to t. */
  ghost predicate Leads(f: Premises, c: Config, s: State, t: State)
    requires c.Valid()
  {
    exists ss, acts :: Follows(f, c, s, ss, acts) && ss[|acts|] == t
  }

  lemma Stay(f: Premises, c: Config, s: State)
    requires c.Valid()
    ensures Leads(f, c, s, s)
  {
    assert Follows(f, c, s, [s], []) && [s][0] == s;
  }

  lemma Step(f: Premises, c: Config, s: State, t: State, a: Action) returns (u: State)
    requires c.Valid() && Leads(f, c, s, t) && Enabled(t, a) && Meets(f, t, a)
    ensures u == Apply(c, t, a) && Leads(f, c, s, u)
  {
    hide Enabled, Apply, Meets;
    u := Apply(c, t, a);
    var ss, acts :| Follows(f, c, s, ss, acts) && ss[|acts|] == t;
    var ss', acts' := ss + [u], acts + [a];
    assert Follows(f, c, s, ss', acts') && ss'[|acts'|] == u;
  }

  lemma FreshId(calls: map<nat, Call>) returns (id: nat)
    ensures id !in calls
  {
    id := AboveAll(calls.Keys);
  }

  lemma {:induction false} AboveAll(ids: set<nat>) returns (top: nat)
    ensures forall i | i in ids :: i < top
    decreases |ids|
  {
    top := 0;
    if ids != {} {
      var x :| x in ids;
      top := AboveAll(ids - {x});
      assert forall i | i in ids :: i == x || i in ids - {x};
      top := if x < top then top else x + 1;
    }
  }

  /** A call that may queue adds a job of its run, and nothing else changes. */
  lemma Queues(f: Premises, c: Config, s: State, t: State, r: nat, id: nat) returns (u: State, k: Slot)
    requires c.Valid() && Leads(f, c, s, t) && id in t.calls && t.calls[id].run == r && t.calls[id].phase == Passed
    ensures Leads(f, c, s, u) && u == t.(q := u.q)
    ensures k !in t.q.table && k in u.q.table && u.q.table == t.q.table[k := u.q.table[k]]
    ensures u.q.table[k].status == Queued && OfRun(k, r) && RunJobKind(k.kind)
    ensures u.q.table[k].attempts == 0 && u.q.table[k].maxAttempts == Some(1) && u.q.table[k].runAfter == t.q.clock
    ensures u.q.pending == t.q.pending && u.q.clock == t.q.clock
  {
    k := UnusedSlot(t.q.table, r);
    u := Step(f, c, s, t, QueueJob(id, k, "{}"));
  }

  // ----- Stopping

  lemma Stopping(f: Premises, c: Config, s: State, t: State, r: nat, k: Slot) returns (u: State)
    requires c.Valid() && Leads(f, c, s, t) && r in t.runs && t.runs[r].ended == Unended && t.runs[r].finishedAt.None?
    requires k in t.q.table && t.q.table[k].status == Queued && OfRun(k, r)
    ensures Leads(f, c, s, u) && u.calls == t.calls && r in u.runs && u.runs[r].ended == Stopped
  {
    hide Q.Apply;
    assert Outstanding(t.q.table[k]);
    u := Step(f, c, s, t, MarkStopped(r));
  }

  lemma Dropping(f: Premises, c: Config, s: State, t: State, r: nat) returns (u: State)
    requires c.Valid() && Leads(f, c, s, t) && r in t.runs
    ensures Leads(f, c, s, u) && u.calls == t.calls && u.runs == t.runs && NothingQueued(u, r)
  {
    u := Step(f, c, s, t, DropQueued(r, "stopped by hand"));
  }

  lemma StartsNightly(f: Premises, c: Config, s: State, t: State, id: nat) returns (u: State)
    requires c.Valid() && Leads(f, c, s, t) && id !in t.calls && !f.runNowOnly
    ensures Leads(f, c, s, u) && u == Started(t, id, Nightly)
  {
    hide Q.Apply;
    u := Step(f, c, s, t, StartNightly(id));
  }

  /**
    From every state there is a behaviour in which a run is stopped while its EnqueueDue is still
    queueing: its queued jobs are dropped, and the next Enqueue is not stopped.
  */
  lemma StopMissesWhoeverIsQueueing(f: Premises, c: Config, s: State) returns (t: State, r: nat, a: Action)
    requires c.Valid() && !f.runNowOnly
    ensures Leads(f, c, s, t) && r in t.runs && t.runs[r].ended == Stopped && NothingQueued(t, r)
    ensures Enabled(t, a) && a.QueueJob? && !NothingQueued(Apply(c, t, a), r)
  {
    hide Enabled, Around, Q.Apply, NothingQueued;
    Stay(f, c, s);
    var id := FreshId(s.calls);
    r := s.nextRun;
    t := StartsNightly(f, c, s, s, id);
    var k;
    t, k := Queues(f, c, s, t, r, id);
    t := Stopping(f, c, s, t, r, k);
    t := Dropping(f, c, s, t, r);
    a := PassedCallCanQueue(c, t, r, id);
  }
}
