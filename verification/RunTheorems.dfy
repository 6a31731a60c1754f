/** What holds of runs over every interleaving of RunProtocol. */
module RunTheorems {
  import opened Prelude
  import opened JobTable
  import opened RunKeys
  import opened RunProtocol
  import Q = QueueProtocol

  // ----- How one queue step can change the row of a key

  /** Only Enqueue makes a key outstanding, and only Enqueue or a failed attempt with tries left queues it. */
  lemma RowAfter(c: Config, q: Q.State, b: Q.Action, k: Slot)
    requires c.Valid() && Q.Enabled(q, b) && k in Q.Apply(c, q, b).table
    ensures k in q.table || (b.Enqueue? && b.slot == k)
    ensures var r := Q.Apply(c, q, b).table[k];
      && (Outstanding(r) ==> (k in q.table && Outstanding(q.table[k])) || (b.Enqueue? && b.slot == k))
      && (r.status == Queued ==>
           || (k in q.table && q.table[k].status == Queued)
           || (b.Enqueue? && b.slot == k)
           || (b.Fail? && b.h.slot == k && (b.h.limit <= 0 || b.h.attempt < b.h.limit)))
  {
  }

  /** Beside its queue step a step leaves the queue alone, except that a crash ends every pending Claim. */
  lemma AroundKeepsQueue(c: Config, s: State, a: Action)
    requires c.Valid() && Enabled(s, a)
    ensures var q := Around(c, s, a).q; q == s.q || q == s.q.(pending := map[])
  {
  }

  lemma StepKeepsQueueInv(c: Config, s: State, a: Action)
    requires c.Valid() && Q.Inv(c, s.q) && Enabled(s, a)
    ensures Q.Inv(c, Apply(c, s, a).q)
  {
    hide Around, Q.Apply, Q.RowOk, Q.LifeOk, Q.HandleOk;
    AroundKeepsQueue(c, s, a);
    if QueueStep(s, a).Some? {
      Q.StepKeepsInv(c, s.q, QueueStep(s, a).value);
    } else {
      Q.Reframe(c, s.q, Around(c, s, a).q);
    }
  }

  ghost predicate RunsOk(s: State) {
    forall r | r in s.runs :: r < s.nextRun && RunOk(s.runs[r])
  }

  /** No step forgets a run, overwrites its end or changes its kind. */
  ghost predicate Continues(before: Run, after: Run) {
    before.ends <= after.ends && before.kind == after.kind && (before.ends != [] ==> after == before)
  }

  lemma RunAfter(c: Config, s: State, a: Action, r: nat)
    requires c.Valid() && RunsOk(s) && Enabled(s, a) && r in s.runs
    ensures r in Apply(c, s, a).runs && RunOk(Apply(c, s, a).runs[r]) && Continues(s.runs[r], Apply(c, s, a).runs[r])
    ensures Apply(c, s, a).nextRun >= s.nextRun
  {
    hide Q.Apply;
    assert RunOk(s.runs[r]);
    assert Apply(c, s, a).runs == Around(c, s, a).runs;
  }

  lemma StepKeepsRuns(c: Config, s: State, a: Action)
    requires c.Valid() && RunsOk(s) && Enabled(s, a)
    ensures RunsOk(Apply(c, s, a))
    ensures forall r | r in s.runs :: r in Apply(c, s, a).runs && Continues(s.runs[r], Apply(c, s, a).runs[r])
  {
    var s' := Apply(c, s, a);
    assert s'.runs == Around(c, s, a).runs && s'.nextRun == Around(c, s, a).nextRun;
    forall r | r in s'.runs ensures r < s'.nextRun && RunOk(s'.runs[r]) {
      if r in s.runs { RunAfter(c, s, a, r); }
    }
    forall r | r in s.runs ensures r in s'.runs && Continues(s.runs[r], s'.runs[r]) {
      RunAfter(c, s, a, r);
    }
  }

  lemma StepKeepsKeys(c: Config, s: State, a: Action)
    requires c.Valid() && Inv(c, s) && Enabled(s, a)
    ensures forall k | k in Apply(c, s, a).q.table && IsRunKey(k.key) ::
      RunJobKind(k.kind) && RunOf(k.key).Some? && RunOf(k.key).value in Apply(c, s, a).runs
  {
    hide Around, Q.Apply;
    StepKeepsRuns(c, s, a);
    AroundKeepsQueue(c, s, a);
    forall k | k in Apply(c, s, a).q.table && IsRunKey(k.key)
      ensures RunJobKind(k.kind) && RunOf(k.key).Some? && RunOf(k.key).value in Apply(c, s, a).runs
    {
      if QueueStep(s, a).Some? { RowAfter(c, s.q, QueueStep(s, a).value, k); }
    }
  }

  lemma StepKeepsOneAttempt(c: Config, s: State, a: Action)
    requires c.Valid() && Inv(c, s) && Enabled(s, a)
    ensures forall i | 0 <= i < |Apply(c, s, a).q.lives| && IsRunKey(Apply(c, s, a).q.lives[i].slot.key) ::
      Apply(c, s, a).q.lives[i].limit == RUN_ATTEMPTS
  {
    forall i | 0 <= i < |Apply(c, s, a).q.lives| && IsRunKey(Apply(c, s, a).q.lives[i].slot.key)
      ensures Apply(c, s, a).q.lives[i].limit == RUN_ATTEMPTS
    {
      if QueueStep(s, a).Some? { Q.LivesAfter(c, s.q, QueueStep(s, a).value, i); }
    }
  }

  lemma StepKeepsInv(c: Config, s: State, a: Action)
    requires c.Valid() && Inv(c, s) && Enabled(s, a)
    ensures Inv(c, Apply(c, s, a))
  {
    StepKeepsQueueInv(c, s, a);
    StepKeepsRuns(c, s, a);
    StepKeepsKeys(c, s, a);
    StepKeepsOneAttempt(c, s, a);
    StepKeepsCalls(c, s, a);
  }

  lemma StepKeepsCalls(c: Config, s: State, a: Action)
    requires c.Valid() && Inv(c, s) && Enabled(s, a)
    ensures forall id | id in Apply(c, s, a).calls :: Apply(c, s, a).calls[id].run in Apply(c, s, a).runs
  {
    var s' := Apply(c, s, a);
    assert s'.calls == Around(c, s, a).calls;
    StepKeepsRuns(c, s, a);
    forall id | id in s'.calls ensures s'.calls[id].run in s'.runs {
      CallAfter(c, s, a, id);
    }
  }

  /** A call that is there after a step was there before, or was just opened. */
  lemma CallAfter(c: Config, s: State, a: Action, id: nat)
    requires c.Valid() && Enabled(s, a) && id in Apply(c, s, a).calls
    ensures var call := Apply(c, s, a).calls[id];
      || (id in s.calls && call.run == s.calls[id].run && call.owner == s.calls[id].owner
          && (call.phase == s.calls[id].phase || a == NextSection(id) || a == LookAtEnded(id)))
      || (a.OpenCall? && call == Call(a.r, Some(a.h), Unchecked))
      || ((a.StartManual? || a.StartNightly? || a.StartCheck?)
          && id == a.id && call == Call(s.nextRun, None, Passed) && s.nextRun in Apply(c, s, a).runs)
  {
    hide Q.Apply;
    assert Apply(c, s, a).calls == Around(c, s, a).calls;
  }

  lemma {:induction false} BehaviourKeepsInv(c: Config, ss: seq<State>, acts: seq<Action>, n: nat)
    requires c.Valid() && Behaviour(c, ss, acts) && n < |ss|
    ensures Inv(c, ss[n])
  {
    if n > 0 {
      BehaviourKeepsInv(c, ss, acts, n - 1);
      StepKeepsInv(c, ss[n - 1], acts[n - 1]);
    }
  }

  // ----- The SQL finds a run's jobs

  lemma {:induction false} RunKeysAreBuilt(c: Config, ss: seq<State>, acts: seq<Action>, n: nat, k: Slot)
    requires c.Valid() && Behaviour(c, ss, acts) && n < |ss| && k in ss[n].q.table && IsRunKey(k.key)
    ensures Built(k.key)
  {
    hide Around, Q.Apply;
    if n > 0 {
      var s, a := ss[n - 1], acts[n - 1];
      AroundKeepsQueue(c, s, a);
      if QueueStep(s, a).Some? { RowAfter(c, s.q, QueueStep(s, a).value, k); }
      if k in s.q.table { RunKeysAreBuilt(c, ss, acts, n - 1, k); }
    }
  }

  /** In every reachable table the pattern of run r matches exactly the jobs of run r. */
  lemma PatternsPickJobsOfRun(c: Config, ss: seq<State>, acts: seq<Action>, n: nat, k: Slot, r: nat)
    requires c.Valid() && Behaviour(c, ss, acts) && n < |ss| && k in ss[n].q.table
    ensures Like(Pattern(r), k.key) <==> OfRun(k, r)
  {
    if IsRunKey(k.key) { RunKeysAreBuilt(c, ss, acts, n, k); }
    PatternAgreesWithField(r, k.key);
  }

  // ----- A run ends once

  lemma RunsAreOk(c: Config, ss: seq<State>, acts: seq<Action>, n: nat)
    requires c.Valid() && Behaviour(c, ss, acts) && n < |ss|
    ensures RunsOk(ss[n])
  {
    hide Apply, Enabled, Q.Inv;
    BehaviourKeepsInv(c, ss, acts, n);
  }

  /**
    Over every interleaving of FinishRun, StopRun, the restart and a cancelled Nightly, `ended`
    is written at most once, is never overwritten later, and is set exactly when finished_at is.
  */
  lemma {:induction false} RunEndsOnce(c: Config, ss: seq<State>, acts: seq<Action>, m: nat, n: nat, r: nat)
    requires c.Valid() && Behaviour(c, ss, acts) && m <= n < |ss| && r in ss[m].runs
    ensures r in ss[n].runs && |ss[n].runs[r].ends| <= 1
    ensures ss[n].runs[r].ended != Unended <==> ss[n].runs[r].finishedAt.Some?
    ensures ss[n].runs[r].ended == Unended <==> ss[n].runs[r].ends == []
    ensures ss[m].runs[r].ended != Unended ==> ss[n].runs[r].ended == ss[m].runs[r].ended
    ensures ss[m].runs[r].ends <= ss[n].runs[r].ends && ss[m].runs[r].kind == ss[n].runs[r].kind
  {
    hide Apply, Enabled;
    RunsAreOk(c, ss, acts, m);
    assert RunOk(ss[m].runs[r]);
    if m < n {
      RunEndsOnce(c, ss, acts, m, n - 1, r);
      RunsAreOk(c, ss, acts, n - 1);
      RunAfter(c, ss[n - 1], acts[n - 1], r);
    }
  }

  // ----- A stopped run stays quiet

  ghost predicate NothingQueued(s: State, r: nat) {
    forall k | k in s.q.table && OfRun(k, r) :: s.q.table[k].status != Queued
  }

  ghost predicate NobodyQueueing(s: State, r: nat) {
    forall id | id in s.calls && s.calls[id].run == r :: s.calls[id].phase == Unchecked
  }

  ghost predicate Quiet(s: State, r: nat) {
    && r in s.runs && (s.runs[r].ended == Stopped || s.runs[r].ended == Restarted)
    && NothingQueued(s, r) && NobodyQueueing(s, r)
  }

  /** StopRun's second statement makes a run quiet, unless a call passed the `ended` check before. */
  lemma DroppingMakesQuiet(c: Config, s: State, r: nat, why: string)
    requires c.Valid() && Inv(c, s) && Enabled(s, DropQueued(r, why)) && s.runs[r].ended == Stopped && NobodyQueueing(s, r)
    ensures Quiet(Apply(c, s, DropQueued(r, why)), r)
  {
  }

  /** A handle on a run's job has no attempt left, so Fail with it ends the job. */
  lemma RunJobsAreNotRetried(c: Config, s: State, h: Handle)
    requires c.Valid() && Inv(c, s) && h in s.q.issued && IsRunKey(h.slot.key)
    ensures h.limit == RUN_ATTEMPTS && h.attempt >= h.limit
  {
  }

  lemma StepKeepsNothingQueued(c: Config, s: State, a: Action, r: nat, k: Slot)
    requires c.Valid() && Inv(c, s) && Enabled(s, a) && Quiet(s, r) && k in Apply(c, s, a).q.table && OfRun(k, r)
    ensures Apply(c, s, a).q.table[k].status != Queued
  {
    hide Around, Q.Apply;
    AroundKeepsQueue(c, s, a);
    if QueueStep(s, a).Some? {
      RowAfter(c, s.q, QueueStep(s, a).value, k);
      if a.Report? && a.h.slot == k { RunJobsAreNotRetried(c, s, a.h); }
    }
  }

  lemma StepKeepsNobodyQueueing(c: Config, s: State, a: Action, r: nat, id: nat)
    requires c.Valid() && Inv(c, s) && Enabled(s, a) && Quiet(s, r)
    requires id in Apply(c, s, a).calls && Apply(c, s, a).calls[id].run == r
    ensures Apply(c, s, a).calls[id].phase == Unchecked
  {
    CallAfter(c, s, a, id);
    assert Apply(c, s, a).calls == Around(c, s, a).calls;
  }

  lemma StepKeepsQuiet(c: Config, s: State, a: Action, r: nat)
    requires c.Valid() && Inv(c, s) && Enabled(s, a) && Quiet(s, r)
    ensures Quiet(Apply(c, s, a), r)
  {
    var s' := Apply(c, s, a);
    RunAfter(c, s, a, r);
    forall k | k in s'.q.table && OfRun(k, r) ensures s'.q.table[k].status != Queued {
      StepKeepsNothingQueued(c, s, a, r, k);
    }
    forall id | id in s'.calls && s'.calls[id].run == r ensures s'.calls[id].phase == Unchecked {
      StepKeepsNobodyQueueing(c, s, a, r, id);
    }
  }

  /**
    Once a run was stopped, its queued jobs were dropped, and nobody who saw it unstopped is
    still queueing, no job of it is ever queued again, whatever workers, callers and restarts do.
  */
  lemma {:induction false} StoppedRunStaysQuiet(c: Config, ss: seq<State>, acts: seq<Action>, m: nat, n: nat, r: nat)
    requires c.Valid() && Behaviour(c, ss, acts) && m <= n < |ss| && Quiet(ss[m], r)
    ensures Quiet(ss[n], r) && NothingQueued(ss[n], r)
  {
    if m < n {
      StoppedRunStaysQuiet(c, ss, acts, m, n - 1, r);
      BehaviourKeepsInv(c, ss, acts, n - 1);
      StepKeepsQuiet(c, ss[n - 1], acts[n - 1], r);
    }
  }

  // ----- A run's job is tried once

  /** A Claim that takes a job is late by at most a lease. */
  ghost predicate Prompt(c: Config, s: State, a: Action)
    requires c.Valid() && Enabled(s, a)
  {
    a.Claim? ==> Q.Prompt(s.q, Q.Take(a.w, a.choice), c.lease)
  }

  ghost predicate AllPrompt(c: Config, ss: seq<State>, acts: seq<Action>)
    requires c.Valid() && Behaviour(c, ss, acts)
  {
    forall i {:trigger acts[i]} | 0 <= i < |acts| :: Prompt(c, ss[i], acts[i])
  }

  /** The keys of runs keep their one attempt by themselves. */
  lemma PromptMeetsAssumption(c: Config, s: State, a: Action, k: Slot)
    requires c.Valid() && Inv(c, s) && Enabled(s, a) && Prompt(c, s, a) && QueueStep(s, a).Some? && IsRunKey(k.key)
    ensures Q.Assumed(c, s.q, QueueStep(s, a).value, k)
  {
    hide Q.Inv, Around;
  }

  lemma StepKeepsLimits(c: Config, s: State, a: Action, k: Slot)
    requires c.Valid() && Inv(c, s) && Q.LimitInv(c, s.q, k) && Enabled(s, a) && Prompt(c, s, a) && IsRunKey(k.key)
    ensures Q.LimitInv(c, Apply(c, s, a).q, k)
  {
    hide Around, Q.Apply, Q.Inv;
    AroundKeepsQueue(c, s, a);
    if QueueStep(s, a).Some? {
      PromptMeetsAssumption(c, s, a, k);
      Q.StepKeepsLimitInv(c, s.q, QueueStep(s, a).value, k);
    } else {
      StepKeepsQueueInv(c, s, a);
      ForgettingClaimsKeepsLimits(c, s.q, k);
    }
  }

  lemma ForgettingClaimsKeepsLimits(c: Config, q: Q.State, k: Slot)
    requires c.Valid() && Q.LimitInv(c, q, k)
    ensures Q.LimitInv(c, q.(pending := map[]), k)
  {
    Q.Reframe(c, q, q.(pending := map[]));
  }

  lemma {:induction false} LimitsHold(c: Config, ss: seq<State>, acts: seq<Action>, n: nat, k: Slot)
    requires c.Valid() && Behaviour(c, ss, acts) && AllPrompt(c, ss, acts) && n < |ss| && IsRunKey(k.key)
    ensures Q.LimitInv(c, ss[n].q, k)
  {
    if n > 0 {
      LimitsHold(c, ss, acts, n - 1, k);
      BehaviourKeepsInv(c, ss, acts, n - 1);
      StepKeepsLimits(c, ss[n - 1], acts[n - 1], k);
    }
  }

  /**
    A job of a run is claimed at most once in each life, and after its lease ran out no Claim gets
    it: whatever worker looks next, its sweep ends the job.
  */
  lemma RunJobIsTriedOnce(c: Config, ss: seq<State>, acts: seq<Action>, n: nat, i: nat)
    requires c.Valid() && Behaviour(c, ss, acts) && AllPrompt(c, ss, acts) && n < |ss|
    requires i < |ss[n].q.lives| && IsRunKey(ss[n].q.lives[i].slot.key)
    ensures |ss[n].q.lives[i].claims| <= 1
    ensures forall k, now | k in ss[n].q.table && ss[n].q.table[k].life == i && LeaseOver(ss[n].q.table[k], now) ::
      k in Swept(ss[n].q.table, now, c) && Swept(ss[n].q.table, now, c)[k].status == Failed
  {
    hide Behaviour, AllPrompt, Inv, Q.LimitInv;
    LimitsHold(c, ss, acts, n, ss[n].q.lives[i].slot);
    BehaviourKeepsInv(c, ss, acts, n);
    ClaimedOnce(c, ss[n], i);
    forall k, now | k in ss[n].q.table && ss[n].q.table[k].life == i && LeaseOver(ss[n].q.table[k], now)
      ensures Swept(ss[n].q.table, now, c)[k].status == Failed
    {
      SweepEndsIt(c, ss[n], k, now);
    }
  }

  lemma ClaimedOnce(c: Config, s: State, i: nat)
    requires c.Valid() && Inv(c, s) && i < |s.q.lives| && IsRunKey(s.q.lives[i].slot.key)
    requires Q.LimitInv(c, s.q, s.q.lives[i].slot)
    ensures |s.q.lives[i].claims| <= 1
  {
  }

  lemma SweepEndsIt(c: Config, s: State, k: Slot, now: Time)
    requires c.Valid() && Inv(c, s) && k in s.q.table && s.q.table[k].life < |s.q.lives|
    requires IsRunKey(s.q.lives[s.q.table[k].life].slot.key) && LeaseOver(s.q.table[k], now)
    ensures Swept(s.q.table, now, c)[k].status == Failed
  {
    assert Q.RowOk(c, s.q, k);
  }
}
