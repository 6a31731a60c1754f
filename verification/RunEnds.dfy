/**
  Who ends runs, and what a restart does to them (internal/pipeline/schedule.go).
*/
module RunEnds {
  import opened Prelude
  import opened JobTable
  import opened RunKeys
  import opened RunProtocol
  import opened RunTheorems
  import Q = QueueProtocol

  // ----- The statements that end a run

  /** The run has ended in that way, now. */
  ghost predicate EndedNow(s: State, s': State, r: nat, how: Ended) {
    r in s'.runs && s'.runs[r].ended == how && s'.runs[r].finishedAt == Some(s.q.clock)
  }

  ghost predicate OthersKept(s: State, s': State, r: nat) {
    s'.runs.Keys == s.runs.Keys && forall o | o in s.runs && o != r :: s'.runs[o] == s.runs[o]
  }

  /** FinishRun ends a run that had no end as finished, and leaves any other as it is. */
  lemma FinishRunEnds(c: Config, s: State, r: nat)
    requires c.Valid() && Inv(c, s) && Enabled(s, FinishRun(r))
    ensures var s' := Apply(c, s, FinishRun(r));
      && OthersKept(s, s', r) && s'.q == s.q
      && (if s.runs[r].ended == Unended then EndedNow(s, s', r, GotThrough) else s'.runs[r] == s.runs[r])
  {
    hide Q.Apply, Inv;
  }

  /** A nightly run that was cancelled ends as stopped. */
  lemma CancelledNightlyEnds(c: Config, s: State, r: nat)
    requires c.Valid() && Inv(c, s) && Enabled(s, CancelNightly(r))
    ensures var s' := Apply(c, s, CancelNightly(r));
      && OthersKept(s, s', r) && s'.q == s.q
      && (if s.runs[r].ended == Unended then EndedNow(s, s', r, Stopped) else s'.runs[r] == s.runs[r])
  {
    hide Q.Apply, Inv;
  }

  /** The first statement of StopRun ends a run exactly when it has no end yet and something left to do. */
  lemma StopRunEnds(c: Config, s: State, r: nat)
    requires c.Valid() && Inv(c, s) && Enabled(s, MarkStopped(r))
    ensures var s' := Apply(c, s, MarkStopped(r));
      && OthersKept(s, s', r) && s'.q == s.q
      && (if s.runs[r].ended == Unended && exists k :: k in s.q.table && s.q.table[k].status in {Queued, Running} && OfRun(k, r)
          then EndedNow(s, s', r, Stopped) else s'.runs[r] == s.runs[r])
  {
    hide Q.Apply, Q.Inv;
    assert RunOk(s.runs[r]);
    if k :| k in s.q.table && s.q.table[k].status in {Queued, Running} && OfRun(k, r) {
      assert Outstanding(s.q.table[k]);
    }
  }

  /** Nobody else ends a run, and no step but a start adds one. */
  lemma NobodyElseEndsRuns(c: Config, s: State, a: Action, r: nat)
    requires c.Valid() && Enabled(s, a) && r in s.runs && r < s.nextRun
    requires a != FinishRun(r) && a != CancelNightly(r) && a != MarkStopped(r) && a != EndInterrupted
    ensures r in Apply(c, s, a).runs && Apply(c, s, a).runs[r] == s.runs[r]
  {
    hide Q.Apply;
    assert Apply(c, s, a).runs == Around(c, s, a).runs;
  }

  /** The end that a step gives to a run that had none. */
  ghost function EndOf(s: State, a: Action, r: nat): Ended {
    if a == FinishRun(r) then GotThrough
    else if a == CancelNightly(r) then Stopped
    else if a == MarkStopped(r) && (exists k :: k in s.q.table && s.q.table[k].status in {Queued, Running} && OfRun(k, r)) then Stopped
    else if a == EndInterrupted && r in s.interrupted then Restarted
    else Unended
  }

  /** How a run ends, for every step of everyone: in exactly these four ways, once, with the time of the step. */
  lemma HowARunEnds(c: Config, s: State, a: Action, r: nat)
    requires c.Valid() && Inv(c, s) && Enabled(s, a) && r in s.runs
    ensures var s' := Apply(c, s, a);
      && r in s'.runs
      && (s.runs[r].ended != Unended || EndOf(s, a, r) == Unended ==> s'.runs[r] == s.runs[r])
      && (s.runs[r].ended == Unended && EndOf(s, a, r) != Unended ==> EndedNow(s, s', r, EndOf(s, a, r)))
  {
    hide Apply, Q.Inv;
    if a == FinishRun(r) {
      FinishRunEnds(c, s, r);
    } else if a == CancelNightly(r) {
      CancelledNightlyEnds(c, s, r);
    } else if a == MarkStopped(r) {
      StopRunEnds(c, s, r);
    } else if a == EndInterrupted {
      EndInterruptedEnds(c, s, r);
    } else {
      NobodyElseEndsRuns(c, s, a, r);
    }
  }

  /** A new run is unended, has the kind it was started as, and its EnqueueDue may queue for it. */
  lemma StartsUnended(c: Config, s: State, a: Action, id: nat)
    requires c.Valid() && Enabled(s, a) && (a == StartManual(id) || a == StartNightly(id) || a == StartCheck(id))
    ensures var s' := Apply(c, s, a);
      && s.nextRun in s'.runs && s'.runs[s.nextRun].ended == Unended && s'.runs[s.nextRun].finishedAt.None?
      && s'.runs[s.nextRun].kind == (if a.StartManual? then Manual else if a.StartNightly? then Nightly else SingleCheck)
      && s'.nextRun == s.nextRun + 1 && s'.calls == s.calls[id := Call(s.nextRun, None, Passed)]
  {
    hide Q.Apply;
  }

  // ----- Who is told to go on

  /** The `ended` check lets a call go on unless its run was stopped or ended by a restart. */
  lemma WhoIsToldToGoOn(c: Config, s: State, id: nat)
    requires c.Valid() && Inv(c, s) && Enabled(s, LookAtEnded(id))
    ensures var s', r := Apply(c, s, LookAtEnded(id)), s.calls[id].run;
      && id in s'.calls && s'.calls[id].run == r && s'.calls[id].owner == s.calls[id].owner
      && (s'.calls[id].phase == Passed <==> s.runs[r].ended == Unended || s.runs[r].ended == GotThrough)
      && s'.q == s.q && s'.runs == s.runs
  {
    hide Q.Apply, Q.Inv;
  }

  /** A call that comes to its next section has to look at `ended` again before it queues anything. */
  lemma EverySectionLooksAgain(c: Config, s: State, id: nat, slot: Slot)
    requires c.Valid() && Enabled(s, NextSection(id))
    ensures var s' := Apply(c, s, NextSection(id));
      && s'.calls == s.calls[id := s.calls[id].(phase := Unchecked)] && s'.runs == s.runs && s'.q == s.q
      && !Enabled(s', QueueJob(id, slot, "{}"))
  {
    hide Q.Apply;
  }

  /** RunNow gives its lock back on every way out: a run is going, it failed, or its EnqueueDue is through. */
  lemma LockIsGivenBack(c: Config, s: State, id: nat)
    requires c.Valid()
    ensures Enabled(s, GiveUp) ==> Apply(c, s, GiveUp) == s.(lock := Unlocked)
    ensures Enabled(s, Look) ==>
      Apply(c, s, Look) == s.(lock := if exists r :: Open(s, r) && HasJob(s, r) then Unlocked else Cleared)
    ensures Enabled(s, CloseCall(id)) ==>
      Apply(c, s, CloseCall(id)) == s.(calls := s.calls - {id}, lock := if s.lock == Queueing(id) then Unlocked else s.lock)
  {
    hide Q.Apply;
  }

  /** A crash loses what was in memory: the lock, the calls, the handlers and the claims under way. Tables stay. */
  lemma CrashLosesMemoryOnly(c: Config, s: State)
    requires c.Valid()
    ensures var s' := Apply(c, s, Crash);
      && s'.q.table == s.q.table && s'.runs == s.runs && s'.q.issued == s.q.issued
      && s'.lock == Unlocked && s'.calls == map[] && s'.active == {} && s'.q.pending == map[]
  {
    hide Q.Apply;
  }

  // ----- Jobs left over from an earlier run

  /**
    EnqueueDue ends the waiting checks, reads and lookups of every other run, and leaves its own jobs,
    the jobs that run, and the jobs of other kinds alone.
  */
  lemma LeftoversAreReplaced(c: Config, s: State, id: nat, k: Slot)
    requires c.Valid() && Enabled(s, Replace(id)) && k in s.q.table
    ensures var t, r := Apply(c, s, Replace(id)).q.table, s.calls[id].run;
      && k in t
      && (k.kind in {"check_source", "read_event", "look_up_startup"} && !OfRun(k, r) ==> t[k].status != Queued)
      && (k.kind !in {"check_source", "read_event", "look_up_startup"} || OfRun(k, r) || s.q.table[k].status != Queued ==>
            t[k] == s.q.table[k])
      && (t[k] != s.q.table[k] ==> t[k].status == Failed && t[k].lockedUntil.None?)
  {
  }

  // ----- A restart

  /** The runs that the first statement notes down are those with a waiting or running job. */
  lemma RunsAtWorkHaveJobs(s: State, r: nat)
    ensures r in RunsAtWork(s) <==> HasJob(s, r)
  {
    if HasJob(s, r) {
      var k :| k in s.q.table && RunJobKind(k.kind) && Outstanding(s.q.table[k]) && OfRun(k, r);
      assert RunOf(k.key).value == r;
    }
  }

  /** The first statement leaves no check, read or lookup of any run waiting or running, and ends no other job. */
  lemma InterruptEndsJobs(c: Config, s: State, k: Slot)
    requires c.Valid() && k in s.q.table
    ensures var t := Apply(c, s, InterruptJobs).q.table;
      && k in t
      && (k.kind in {"check_source", "read_event", "look_up_startup"} && IsRunKey(k.key) ==> t[k].status == Done || t[k].status == Failed)
      && (k.kind !in {"check_source", "read_event", "look_up_startup"} || !IsRunKey(k.key) ==> t[k] == s.q.table[k])
      && (!Outstanding(s.q.table[k]) ==> t[k] == s.q.table[k])
  {
  }

  /** The second statement ends the noted runs that have no end yet, and no other run changes. */
  lemma EndInterruptedEnds(c: Config, s: State, r: nat)
    requires c.Valid() && Inv(c, s) && r in s.runs
    ensures var s' := Apply(c, s, EndInterrupted);
      && r in s'.runs && s'.runs.Keys == s.runs.Keys
      && (if r in s.interrupted && s.runs[r].ended == Unended then EndedNow(s, s', r, Restarted) else s'.runs[r] == s.runs[r])
  {
    hide Q.Apply, Q.Inv;
    assert RunOk(s.runs[r]);
  }

  /** A step of others between the two statements of a clean-up. */
  predicate OfOthers(a: Action) {
    !a.InterruptJobs? && !a.EndInterrupted? && !a.Crash?
  }

  lemma NotesStay(c: Config, s: State, a: Action)
    requires c.Valid() && Enabled(s, a) && OfOthers(a)
    ensures Apply(c, s, a).interrupted == s.interrupted
  {
    hide Q.Apply;
    assert Apply(c, s, a).interrupted == Around(c, s, a).interrupted;
  }

  lemma {:induction false} NotesStayBetween(c: Config, ss: seq<State>, acts: seq<Action>, m: nat, n: nat)
    requires c.Valid() && Behaviour(c, ss, acts) && m < n < |ss| && acts[m] == InterruptJobs
    requires forall i | m < i < n :: OfOthers(acts[i])
    ensures ss[n].interrupted == RunsAtWork(ss[m])
  {
    hide Q.Apply;
    if m + 1 < n {
      NotesStayBetween(c, ss, acts, m, n - 1);
      NotesStay(c, ss[n - 1], acts[n - 1]);
    }
  }

  /**
    A restart ends the runs it interrupts. Whatever others do between its two statements, every run
    that had a waiting or running check, read or lookup at the first has ended after the second, by the
    restart unless it had ended before. Every other run is as it was.
  */
  lemma RestartEndsInterruptedRuns(c: Config, ss: seq<State>, acts: seq<Action>, m: nat, n: nat, r: nat)
    requires c.Valid() && Behaviour(c, ss, acts) && m < n < |acts| && acts[m] == InterruptJobs && acts[n] == EndInterrupted
    requires (forall i | m < i < n :: OfOthers(acts[i])) && r in ss[n].runs
    ensures r in ss[n + 1].runs
    ensures HasJob(ss[m], r) ==> ss[n + 1].runs[r].finishedAt.Some?
    ensures HasJob(ss[m], r) && ss[n].runs[r].ended == Unended ==> EndedNow(ss[n], ss[n + 1], r, Restarted)
    ensures !HasJob(ss[m], r) || ss[n].runs[r].ended != Unended ==> ss[n + 1].runs[r] == ss[n].runs[r]
  {
    hide Apply, Enabled;
    BehaviourKeepsInv(c, ss, acts, n);
    RunsAreOk(c, ss, acts, n);
    assert RunOk(ss[n].runs[r]);
    NotesStayBetween(c, ss, acts, m, n);
    RunsAtWorkHaveJobs(ss[m], r);
    EndInterruptedEnds(c, ss[n], r);
  }
}
