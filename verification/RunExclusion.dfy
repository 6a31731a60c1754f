/**
  One run at a time (RunNow in internal/pipeline/schedule.go).

  Holds when runs are started through RunNow alone, because Nightly does not take the lock, when
  handlers finish inside their lease, and when a restart cleans up before anyone works. RunOverlap
  proves that none of the three can go.
*/
module RunExclusion {
  import opened Prelude
  import opened JobTable
  import opened RunKeys
  import opened RunProtocol
  import opened RunTheorems
  import Q = QueueProtocol

  /** No lease of a handler that still works is over at the given clock reading. */
  ghost predicate LeasesHeld(s: State, now: Time) {
    forall h | h in s.active && h.slot in s.q.table :: !LeaseOver(s.q.table[h.slot], now)
  }

  /** Which of the three premises are in force. */
  datatype Premises = Premises(runNowOnly: bool, inLease: bool, restartAlone: bool)

  const ALL := Premises(true, true, true)

  /** Handlers finish inside their lease: whoever looks for leases that ran out finds none of theirs. */
  ghost predicate InLease(s: State, a: Action)
    requires Enabled(s, a)
  {
    && (a.Queue? && a.a.Sweep? ==> LeasesHeld(s, s.q.pending[a.a.w].now))
    && (a.Claim? ==> LeasesHeld(s, s.q.pending[a.w].now))
  }

  /** The step is one that happens under these premises. */
  ghost predicate Meets(f: Premises, s: State, a: Action)
    requires Enabled(s, a)
  {
    && (f.runNowOnly ==> !a.StartNightly?)
    && (f.inLease ==> InLease(s, a))
    && (f.restartAlone ==> a.InterruptJobs? ==> s.active == {})
  }

  ghost predicate Assumed(s: State, a: Action)
    requires Enabled(s, a)
  {
    Meets(ALL, s, a)
  }

  ghost predicate OnlyRunNow(ss: seq<State>, acts: seq<Action>)
    requires |ss| == |acts| + 1
    requires forall i {:trigger acts[i]} | 0 <= i < |acts| :: Enabled(ss[i], acts[i])
  {
    forall i {:trigger acts[i]} | 0 <= i < |acts| :: Assumed(ss[i], acts[i])
  }

  /** A run that has an outstanding job, or somebody who may give it one. */
  ghost predicate Busy(s: State, r: nat) {
    Open(s, r) && (HasJob(s, r) || HasCall(s, r))
  }

  ghost predicate HandlerOk(s: State, h: Handle) {
    h in s.q.issued && Holds(s.q.table, h) && s.q.table[h.slot].life == h.life
  }

  ghost predicate CallOk(s: State, id: nat)
    requires id in s.calls
  {
    var call := s.calls[id];
    && (call.owner.Some? ==> call.owner.value in s.active && OfRun(call.owner.value.slot, call.run))
    && (call.owner.None? && call.run in s.runs && s.runs[call.run].kind == Manual ==> s.lock == Queueing(id))
  }

  ghost predicate Exclusive(s: State) {
    && (forall r1, r2 | Busy(s, r1) && Busy(s, r2) :: r1 == r2)
    && (s.lock == Cleared ==> forall r :: !Busy(s, r))
  }

  ghost predicate ExclusionInv(c: Config, s: State)
    requires c.Valid()
  {
    && Inv(c, s)
    && (forall h | h in s.active :: HandlerOk(s, h))
    && (forall id | id in s.calls :: CallOk(s, id))
    && (forall r | r in s.runs :: s.runs[r].kind != Nightly)
    && Exclusive(s)
  }

  // ----- Handlers keep their jobs

  /** Two handles that hold the same row in the same life are the same handle. */
  lemma HoldersAgree(c: Config, s: State, g: Handle, h: Handle)
    requires c.Valid() && Inv(c, s) && HandlerOk(s, g) && HandlerOk(s, h) && g.slot == h.slot
    ensures g == h
  {
  }

  /** Nobody but the handler itself changes the row of a handler that works within its lease. */
  lemma QueueStepKeepsHandler(c: Config, s: State, b: Q.Action, h: Handle)
    requires c.Valid() && Inv(c, s) && HandlerOk(s, h) && Q.Enabled(s.q, b)
    requires b.Sweep? || b.Take? ==> !LeaseOver(s.q.table[h.slot], s.q.pending[b.w].now)
    requires b.Complete? || b.Fail? ==> HandlerOk(s, b.h) && b.h != h
    requires !b.Interrupt?
    ensures h.slot in Q.Apply(c, s.q, b).table && Q.Apply(c, s.q, b).table[h.slot] == s.q.table[h.slot]
    ensures h in Q.Apply(c, s.q, b).issued
  {
    if b.Complete? || b.Fail? {
      if b.h.slot == h.slot { HoldersAgree(c, s, b.h, h); }
    }
  }

  lemma WorkingHandlerKeepsJob(c: Config, s: State, a: Action, h: Handle)
    requires c.Valid() && ExclusionInv(c, s) && Enabled(s, a) && Assumed(s, a) && h in s.active
    requires QueueStep(s, a).Some? && !(a.Report? && a.h == h)
    ensures HandlerOk(Apply(c, s, a), h)
  {
    assert HandlerOk(s, h);
    if a.Report? { assert HandlerOk(s, a.h); }
    QueueStepKeepsHandler(c, s, QueueStep(s, a).value, h);
  }

  lemma NewHandlerHoldsJob(c: Config, s: State, w: nat, k: Slot)
    requires c.Valid() && Inv(c, s) && Enabled(s, Claim(w, Some(k)))
    ensures HandlerOk(Apply(c, s, Claim(w, Some(k))), HandleOf(k, TakenRow(s.q.table[k], s.q.pending[w].now, c), c))
  {
  }

  /** A handler that is at work after a step was before, and did not report, or was just started. */
  lemma WhoIsActive(c: Config, s: State, a: Action, h: Handle)
    requires c.Valid() && Enabled(s, a) && h in Around(c, s, a).active
    ensures (h in s.active && !(a.Report? && a.h == h))
      || (a.Claim? && a.choice.Some? && h == HandleOf(a.choice.value, TakenRow(s.q.table[a.choice.value], s.q.pending[a.w].now, c), c))
  {
  }

  lemma StepKeepsHandlers(c: Config, s: State, a: Action, h: Handle)
    requires c.Valid() && ExclusionInv(c, s) && Enabled(s, a) && Assumed(s, a) && h in Apply(c, s, a).active
    ensures HandlerOk(Apply(c, s, a), h)
  {
    hide Around, Q.Apply;
    WhoIsActive(c, s, a, h);
    AroundKeepsQueue(c, s, a);
    if h !in s.active {
      NewHandlerHoldsJob(c, s, a.w, a.choice.value);
    } else if QueueStep(s, a).Some? {
      WorkingHandlerKeepsJob(c, s, a, h);
    } else {
      assert HandlerOk(s, h);
    }
  }

  // ----- A quiet run never wakes

  lemma OpenBefore(c: Config, s: State, a: Action, r: nat)
    requires c.Valid() && Inv(c, s) && Enabled(s, a) && r in s.runs && Open(Apply(c, s, a), r)
    ensures Open(s, r)
  {
    RunAfter(c, s, a, r);
    assert RunOk(s.runs[r]);
  }

  /** The only step that queues a key of a run is one of a call that passed the check for that run. */
  lemma WhoQueues(s: State, a: Action, k: Slot, r: nat)
    requires Enabled(s, a) && QueueStep(s, a).Some? && QueueStep(s, a).value.Enqueue?
    requires QueueStep(s, a).value.slot == k && OfRun(k, r)
    ensures HasCall(s, r)
  {
  }

  lemma JobRowBefore(c: Config, s: State, a: Action, r: nat, k: Slot)
    requires c.Valid() && Enabled(s, a)
    requires k in Apply(c, s, a).q.table && Outstanding(Apply(c, s, a).q.table[k]) && OfRun(k, r)
    ensures (k in s.q.table && Outstanding(s.q.table[k])) || HasCall(s, r)
  {
    if QueueStep(s, a).Some? {
      var b := QueueStep(s, a).value;
      assert Apply(c, s, a).q == Q.Apply(c, s.q, b);
      RowAfter(c, s.q, b, k);
      if b.Enqueue? && b.slot == k { WhoQueues(s, a, k, r); }
    } else {
      assert Apply(c, s, a).q.table == s.q.table;
    }
  }

  lemma JobBefore(c: Config, s: State, a: Action, r: nat)
    requires c.Valid() && Enabled(s, a) && HasJob(Apply(c, s, a), r)
    ensures HasJob(s, r) || HasCall(s, r)
  {
    var s' := Apply(c, s, a);
    var k :| k in s'.q.table && RunJobKind(k.kind) && Outstanding(s'.q.table[k]) && OfRun(k, r);
    JobRowBefore(c, s, a, r, k);
  }

  lemma OwnerHasJob(c: Config, s: State, h: Handle, r: nat)
    requires c.Valid() && Inv(c, s) && HandlerOk(s, h) && OfRun(h.slot, r)
    ensures HasJob(s, r)
  {
  }

  lemma CallBefore(c: Config, s: State, a: Action, r: nat)
    requires c.Valid() && ExclusionInv(c, s) && Enabled(s, a) && r in s.runs && HasCall(Apply(c, s, a), r)
    ensures HasJob(s, r) || HasCall(s, r)
  {
    var calls := Apply(c, s, a).calls;
    var id :| id in calls && calls[id].run == r;
    CallAfter(c, s, a, id);
    if id !in s.calls && a.OpenCall? {
      OwnerHasJob(c, s, a.h, r);
    }
  }

  /** A run with no outstanding job, and nobody to queue one for it, never gains one again. */
  lemma QuietRunNeverWakes(c: Config, s: State, a: Action, r: nat)
    requires c.Valid() && ExclusionInv(c, s) && Enabled(s, a) && r in s.runs && Busy(Apply(c, s, a), r)
    ensures Busy(s, r)
  {
    OpenBefore(c, s, a, r);
    if HasJob(Apply(c, s, a), r) { JobBefore(c, s, a, r); } else { CallBefore(c, s, a, r); }
  }

  /** Only RunNow, holding the lock with no run busy, adds a run that can be busy. */
  lemma NewRunBefore(c: Config, s: State, a: Action, r: nat)
    requires c.Valid() && Enabled(s, a) && !a.StartNightly? && r !in s.runs && Open(Apply(c, s, a), r)
    ensures a.StartManual? && r == s.nextRun && s.lock == Cleared && Apply(c, s, a).lock != Cleared
  {
    hide Q.Apply;
    assert Apply(c, s, a).runs == Around(c, s, a).runs;
  }

  /** What RunNow saw under the lock: no open run has a job, so no open run is busy. */
  lemma LookFindsNobodyBusy(c: Config, s: State, r: nat)
    requires c.Valid() && ExclusionInv(c, s) && s.lock == Locked && Busy(s, r)
    ensures Open(s, r) && HasJob(s, r)
  {
  }

  lemma StepKeepsExclusive(c: Config, s: State, a: Action)
    requires c.Valid() && ExclusionInv(c, s) && Enabled(s, a) && Assumed(s, a)
    ensures Exclusive(Apply(c, s, a))
  {
    var s' := Apply(c, s, a);
    forall r1, r2 | Busy(s', r1) && Busy(s', r2) ensures r1 == r2 {
      BusyBefore(c, s, a, r1);
      BusyBefore(c, s, a, r2);
    }
    if s'.lock == Cleared {
      forall r ensures !Busy(s', r) {
        if Busy(s', r) {
          BusyBefore(c, s, a, r);
          ClearedBefore(c, s, a, r);
        }
      }
    }
  }

  lemma BusyBefore(c: Config, s: State, a: Action, r: nat)
    requires c.Valid() && ExclusionInv(c, s) && Enabled(s, a) && Assumed(s, a) && Busy(Apply(c, s, a), r)
    ensures Busy(s, r) || (r == s.nextRun && s.lock == Cleared && Apply(c, s, a).lock != Cleared)
  {
    if r in s.runs { QuietRunNeverWakes(c, s, a, r); } else { NewRunBefore(c, s, a, r); }
  }

  /** Only Look, finding no open run with a job, clears the way for a new run. */
  lemma WhoClears(c: Config, s: State, a: Action)
    requires c.Valid() && Enabled(s, a) && Around(c, s, a).lock == Cleared && s.lock != Cleared
    ensures s.lock == Locked && forall r :: !(Open(s, r) && HasJob(s, r))
  {
    hide HasJob, Open;
  }

  lemma ClearedBefore(c: Config, s: State, a: Action, r: nat)
    requires c.Valid() && ExclusionInv(c, s) && Enabled(s, a) && Apply(c, s, a).lock == Cleared
    ensures !Busy(s, r)
  {
    hide Around, Q.Apply;
    if Busy(s, r) && s.lock != Cleared {
      WhoClears(c, s, a);
      LookFindsNobodyBusy(c, s, r);
    }
  }

  /** A call whose owner still works keeps it, because a handler returns only after its calls. */
  lemma OwnerStays(c: Config, s: State, a: Action, id: nat)
    requires c.Valid() && Enabled(s, a) && id in s.calls && id in Apply(c, s, a).calls && CallOk(s, id)
    ensures s.calls[id].owner.Some? ==> s.calls[id].owner.value in Apply(c, s, a).active
    ensures s.lock == Queueing(id) ==> Apply(c, s, a).lock == Queueing(id)
  {
    var p := Around(c, s, a);
    assert Apply(c, s, a).calls == p.calls && Apply(c, s, a).active == p.active && Apply(c, s, a).lock == p.lock;
  }

  lemma StepKeepsCallOk(c: Config, s: State, a: Action, id: nat)
    requires c.Valid() && ExclusionInv(c, s) && Enabled(s, a) && Assumed(s, a) && id in Apply(c, s, a).calls
    ensures CallOk(Apply(c, s, a), id)
  {
    CallAfter(c, s, a, id);
    if id in s.calls {
      assert CallOk(s, id) && s.calls[id].run in s.runs;
      OwnerStays(c, s, a, id);
      RunAfter(c, s, a, s.calls[id].run);
    } else {
      NewCallOk(c, s, a, id);
    }
  }

  lemma NewCallOk(c: Config, s: State, a: Action, id: nat)
    requires c.Valid() && Enabled(s, a) && id !in s.calls && id in Apply(c, s, a).calls
    ensures CallOk(Apply(c, s, a), id)
  {
    hide Q.Apply;
    assert Apply(c, s, a) == Around(c, s, a);
  }

  lemma NoNightlyRun(c: Config, s: State, a: Action, r: nat)
    requires c.Valid() && RunsOk(s) && Enabled(s, a) && !a.StartNightly? && r in Apply(c, s, a).runs
    requires r in s.runs ==> s.runs[r].kind != Nightly
    ensures Apply(c, s, a).runs[r].kind != Nightly
  {
    hide Q.Apply;
    if r in s.runs { RunAfter(c, s, a, r); } else { assert Apply(c, s, a).runs == Around(c, s, a).runs; }
  }

  lemma StepKeepsExclusionInv(c: Config, s: State, a: Action)
    requires c.Valid() && ExclusionInv(c, s) && Enabled(s, a) && Assumed(s, a)
    ensures ExclusionInv(c, Apply(c, s, a))
  {
    hide Q.Apply, Around;
    var s' := Apply(c, s, a);
    StepKeepsInv(c, s, a);
    StepKeepsExclusive(c, s, a);
    forall h | h in s'.active ensures HandlerOk(s', h) { StepKeepsHandlers(c, s, a, h); }
    forall id | id in s'.calls ensures CallOk(s', id) { StepKeepsCallOk(c, s, a, id); }
    forall r | r in s'.runs ensures s'.runs[r].kind != Nightly {
      NoNightlyRun(c, s, a, r);
    }
  }

  lemma {:induction false} BehaviourKeepsExclusionInv(c: Config, ss: seq<State>, acts: seq<Action>, n: nat)
    requires c.Valid() && Behaviour(c, ss, acts) && OnlyRunNow(ss, acts) && n < |ss|
    ensures ExclusionInv(c, ss[n])
  {
    if n > 0 {
      BehaviourKeepsExclusionInv(c, ss, acts, n - 1);
      StepKeepsExclusionInv(c, ss[n - 1], acts[n - 1]);
    }
  }

  /**
    Over every interleaving of RunNow callers, workers, StopRun and restarts, at most one
    unfinished nightly or manual run has a queued or running check, read or lookup.
  */
  lemma AtMostOneRunHasWork(c: Config, ss: seq<State>, acts: seq<Action>, n: nat, r1: nat, r2: nat)
    requires c.Valid() && Behaviour(c, ss, acts) && OnlyRunNow(ss, acts) && n < |ss|
    requires Open(ss[n], r1) && HasJob(ss[n], r1) && Open(ss[n], r2) && HasJob(ss[n], r2)
    ensures r1 == r2
  {
    BehaviourKeepsExclusionInv(c, ss, acts, n);
    assert Busy(ss[n], r1) && Busy(ss[n], r2);
  }
}
