/**
  The goroutines of Worker.run when it is called by RunUntilIdle (internal/queue/worker.go).

  Each goroutine walks the program points below. They share the jobs table, the busy counter,
  the idle channel and the first error. A handler may do anything to the table while its
  goroutine is at `Working`, so every handler is covered. Nothing else touches the table.

  Claim passes over rows that another statement holds at that moment (SKIP LOCKED). So it may get
  any job that is due, and it may find nothing although a job is due, as long as some other
  goroutine is in a Claim or in a handler.
*/
module WorkerPool {
  import opened Prelude
  import opened JobTable

  datatype Pc =
    | Top                                                  // the loop head
    | Entered                                              // counted as busy, about to call Claim
    | Looking(now: Time, swept: bool)                      // inside Claim
    | Working                                              // running a job's handler
    | Leaving(found: bool, broke: bool)                    // about to leave the busy count
    | Deciding(found: bool, broke: bool, lastOne: bool)    // after the mutex, lastOne is nowIdle
    | Waiting                                              // in the select
    | Gone

  datatype Pool = Pool(
    table: Table,
    clock: Time,
    pcs: seq<Pc>,
    busy: int,
    idleClosed: bool,
    runErr: bool,
    cancelled: bool,
    lastReading: Option<Time>)   // history: the clock reading of the last Claim that got through

  datatype Action =
    | Tick(to: Time)
    | Cancel
    | Enter(g: nat)
    | ReadClock(g: nat)
    | Sweep(g: nat)
    | Take(g: nat, choice: Option<Slot>)
    | ClaimBreaks(g: nat)
    | Handle(g: nat, result: Table)
    | HandlerReturns(g: nat)
    | Leave(g: nat)
    | Decide(g: nat)
    | Poll(g: nat)
    | Quit(g: nat)

  ghost predicate Init(s: Pool) {
    && |s.pcs| >= 1 && (forall g | 0 <= g < |s.pcs| :: s.pcs[g] == Top)
    && s.busy == 0 && !s.idleClosed && !s.runErr && !s.cancelled && s.lastReading.None?
  }

  /** Another goroutine may be in the middle of a statement, in its Claim or in its handler. */
  ghost predicate SomeoneHoldsRows(s: Pool, g: nat) {
    exists h :: 0 <= h < |s.pcs| && h != g && (s.pcs[h].Looking? || s.pcs[h].Working?)
  }

  ghost predicate Enabled(s: Pool, a: Action) {
    match a
    case Tick(to) => to >= s.clock
    case Cancel => true
    case Enter(g) => g < |s.pcs| && s.pcs[g] == Top && !s.cancelled
    case ReadClock(g) => g < |s.pcs| && s.pcs[g] == Entered
    case Sweep(g) => g < |s.pcs| && s.pcs[g].Looking? && !s.pcs[g].swept
    case Take(g, choice) =>
      && g < |s.pcs| && s.pcs[g].Looking? && s.pcs[g].swept
      && (if choice.Some? then choice.value in s.table && Due(s.table[choice.value], s.pcs[g].now)
          else NothingDue(s.table, s.pcs[g].now) || SomeoneHoldsRows(s, g))
    case ClaimBreaks(g) => g < |s.pcs| && (s.pcs[g].Entered? || s.pcs[g].Looking?)
    case Handle(g, _) => g < |s.pcs| && s.pcs[g] == Working
    case HandlerReturns(g) => g < |s.pcs| && s.pcs[g] == Working
    case Leave(g) => g < |s.pcs| && s.pcs[g].Leaving?
    case Decide(g) => g < |s.pcs| && s.pcs[g].Deciding?
    case Poll(g) => g < |s.pcs| && s.pcs[g] == Waiting
    case Quit(g) =>
      g < |s.pcs| && ((s.pcs[g] == Waiting && (s.idleClosed || s.cancelled)) || (s.pcs[g] == Top && s.cancelled))
  }

  ghost function At(s: Pool, g: nat, pc: Pc): Pool
    requires g < |s.pcs|
  {
    s.(pcs := s.pcs[g := pc])
  }

  ghost function Apply(c: Config, s: Pool, a: Action): Pool
    requires c.Valid() && Enabled(s, a)
  {
    match a
    case Tick(to) => s.(clock := to)
    case Cancel => s.(cancelled := true)
    case Enter(g) => At(s, g, Entered).(busy := s.busy + 1)
    case ReadClock(g) => At(s, g, Looking(s.clock, false))
    case Sweep(g) => At(s, g, Looking(s.pcs[g].now, true)).(table := Swept(s.table, s.pcs[g].now, c))
    case Take(g, choice) =>
      var s' := s.(lastReading := Some(s.pcs[g].now));
      if choice.None? then At(s', g, Leaving(false, false))
      else At(s', g, Working).(table := Taken(s.table, choice.value, s.pcs[g].now, c))
    case ClaimBreaks(g) => At(s, g, Leaving(false, true))
    case Handle(_, result) => s.(table := result)
    case HandlerReturns(g) => At(s, g, Leaving(true, false))
    case Leave(g) =>
      At(s, g, Deciding(s.pcs[g].found, s.pcs[g].broke, s.busy - 1 == 0)).(busy := s.busy - 1)
    case Decide(g) =>
      var pc := s.pcs[g];
      if pc.broke && s.cancelled then At(s, g, Gone)
      else
        var s' := if pc.broke then s.(runErr := true) else s;
        if pc.found then At(s', g, Top)
        else if pc.lastOne && !pc.broke then At(s', g, Gone).(idleClosed := true)
        else At(s', g, Waiting)
    case Poll(g) => At(s, g, Top)
    case Quit(g) => At(s, g, Gone)
  }

  ghost predicate Behaviour(c: Config, ss: seq<Pool>, acts: seq<Action>)
    requires c.Valid()
  {
    && |ss| == |acts| + 1 && Init(ss[0])
    && forall i {:trigger acts[i]} | 0 <= i < |acts| :: Enabled(ss[i], acts[i]) && ss[i + 1] == Apply(c, ss[i], acts[i])
  }

  // ----- The busy counter

  predicate IsBusy(pc: Pc) {
    pc.Entered? || pc.Looking? || pc.Working? || pc.Leaving?
  }

  function Count(pcs: seq<Pc>): nat {
    if pcs == [] then 0 else Count(pcs[..|pcs| - 1]) + (if IsBusy(pcs[|pcs| - 1]) then 1 else 0)
  }

  predicate NobodyBusy(pcs: seq<Pc>) {
    forall g | 0 <= g < |pcs| :: !IsBusy(pcs[g])
  }

  lemma {:induction false} CountUpdate(pcs: seq<Pc>, g: nat, pc: Pc)
    requires g < |pcs|
    ensures Count(pcs[g := pc]) == Count(pcs) + (if IsBusy(pc) then 1 else 0) - (if IsBusy(pcs[g]) then 1 else 0)
  {
    var n := |pcs| - 1;
    if g == n {
      assert pcs[g := pc][..n] == pcs[..n];
    } else {
      CountUpdate(pcs[..n], g, pc);
      assert pcs[g := pc][..n] == pcs[..n][g := pc];
    }
  }

  lemma {:induction false} CountZero(pcs: seq<Pc>)
    ensures Count(pcs) == 0 <==> NobodyBusy(pcs)
  {
    if pcs != [] {
      var n := |pcs| - 1;
      CountZero(pcs[..n]);
      assert forall g | 0 <= g < n :: pcs[..n][g] == pcs[g];
    }
  }

  // ----- What every step keeps

  /** The last thing this goroutine did with the queue was a Claim that found nothing. */
  predicate FoundNothing(pc: Pc) {
    pc == Leaving(false, false) || (pc.Deciding? && !pc.found && !pc.broke) || pc == Waiting || pc == Gone
  }

  ghost predicate Clean(s: Pool) {
    !s.runErr && !s.cancelled
  }

  /** A goroutine that is certain to go round the loop again, or that saw an error. */
  predicate WillReturn(pc: Pc) {
    pc == Top || (pc.Deciding? && (pc.found || pc.broke))
  }

  /** With nobody busy and nobody about to go on, somebody saw that it was the last one. */
  ghost predicate SignalDue(s: Pool) {
    s.busy == 0 && !s.idleClosed && (forall g | 0 <= g < |s.pcs| :: !WillReturn(s.pcs[g])) ==>
      exists g :: 0 <= g < |s.pcs| && s.pcs[g] == Deciding(false, false, true)
  }

  ghost predicate Drained(s: Pool) {
    (forall g | 0 <= g < |s.pcs| :: FoundNothing(s.pcs[g])) ==>
      s.lastReading.Some? && NothingDue(s.table, s.lastReading.value)
  }

  ghost predicate Inv(s: Pool) {
    && |s.pcs| >= 1 && s.busy == Count(s.pcs)
    && (Clean(s) ==> SignalDue(s) && Drained(s))
  }

  lemma StepKeepsInv(c: Config, s: Pool, a: Action)
    requires c.Valid() && Inv(s) && Enabled(s, a)
    ensures Inv(Apply(c, s, a))
  {
    StepKeepsCount(c, s, a);
    if Clean(Apply(c, s, a)) {
      StepKeepsDrained(c, s, a);
      StepKeepsSignalDue(c, s, a);
    }
  }

  function One(pc: Pc): nat {
    if IsBusy(pc) then 1 else 0
  }

  predicate MovesNobody(a: Action) {
    a.Tick? || a.Cancel? || a.Handle?
  }

  /** A step moves one goroutine, and changes the counter as that goroutine's place says. */
  lemma OneMoves(c: Config, s: Pool, a: Action)
    requires c.Valid() && Enabled(s, a)
    ensures var s' := Apply(c, s, a);
      if MovesNobody(a) then s'.pcs == s.pcs && s'.busy == s.busy
      else
        && a.g < |s.pcs| == |s'.pcs| && s'.pcs == s.pcs[a.g := s'.pcs[a.g]]
        && s'.busy == s.busy + One(s'.pcs[a.g]) - One(s.pcs[a.g])
  {
  }

  lemma StepKeepsCount(c: Config, s: Pool, a: Action)
    requires c.Valid() && s.busy == Count(s.pcs) && Enabled(s, a)
    ensures Apply(c, s, a).busy == Count(Apply(c, s, a).pcs) && |Apply(c, s, a).pcs| == |s.pcs|
  {
    hide Apply, Enabled;
    OneMoves(c, s, a);
    if !MovesNobody(a) {
      CountUpdate(s.pcs, a.g, Apply(c, s, a).pcs[a.g]);
    }
  }

  /** A goroutine comes to have found nothing by a Claim that found nothing, and without touching the table. */
  lemma ComesToNothing(c: Config, s: Pool, a: Action)
    requires c.Valid() && Enabled(s, a) && Clean(Apply(c, s, a)) && !a.Tick?
    requires a.Cancel? || FoundNothing(Apply(c, s, a).pcs[a.g])
    ensures !a.Cancel? && Clean(s) && Apply(c, s, a).table == s.table
    ensures if a.Take? then a.choice.None? && Apply(c, s, a).lastReading == Some(s.pcs[a.g].now)
      else FoundNothing(s.pcs[a.g]) && Apply(c, s, a).lastReading == s.lastReading
  {
  }

  lemma StepKeepsDrained(c: Config, s: Pool, a: Action)
    requires c.Valid() && Inv(s) && Enabled(s, a) && Clean(Apply(c, s, a))
    ensures Drained(Apply(c, s, a))
  {
    if !a.Tick? && (forall g | 0 <= g < |Apply(c, s, a).pcs| :: FoundNothing(Apply(c, s, a).pcs[g])) {
      DrainedAgain(c, s, a);
    }
  }

  lemma DrainedAgain(c: Config, s: Pool, a: Action)
    requires c.Valid() && (Clean(s) ==> Drained(s)) && Enabled(s, a) && Clean(Apply(c, s, a)) && !a.Tick?
    requires forall g | 0 <= g < |Apply(c, s, a).pcs| :: FoundNothing(Apply(c, s, a).pcs[g])
    ensures Apply(c, s, a).lastReading.Some? && NothingDue(Apply(c, s, a).table, Apply(c, s, a).lastReading.value)
  {
    hide Apply, NothingDue, Count;
    OneMoves(c, s, a);
    ComesToNothing(c, s, a);
    var pcs := Apply(c, s, a).pcs;
    forall g | 0 <= g < |s.pcs| && g != a.g ensures s.pcs[g] == pcs[g] && FoundNothing(s.pcs[g]) {}
  }

  lemma StepKeepsSignalDue(c: Config, s: Pool, a: Action)
    requires c.Valid() && Inv(s) && Enabled(s, a) && Clean(Apply(c, s, a)) && Apply(c, s, a).busy == Count(Apply(c, s, a).pcs)
    ensures SignalDue(Apply(c, s, a))
  {
    var s' := Apply(c, s, a);
    CountZero(s'.pcs);
    if s'.busy == 0 && !s'.idleClosed && (forall g | 0 <= g < |s'.pcs| :: !WillReturn(s'.pcs[g])) {
      if !a.Tick? && !a.Handle? {
        assert !WillReturn(s'.pcs[a.g]) && !IsBusy(s'.pcs[a.g]);
        if a.Leave? {
          assert s'.pcs[a.g] == Deciding(false, false, true);
        } else {
          assert forall g | 0 <= g < |s.pcs| && g != a.g :: s.pcs[g] == s'.pcs[g];
          var g :| 0 <= g < |s.pcs| && s.pcs[g] == Deciding(false, false, true);
          assert s'.pcs[g] == Deciding(false, false, true);
        }
      }
    }
  }

  lemma {:induction false} BehaviourKeepsInv(c: Config, ss: seq<Pool>, acts: seq<Action>, n: nat)
    requires c.Valid() && Behaviour(c, ss, acts) && n < |ss|
    ensures Inv(ss[n])
  {
    if n == 0 {
      CountZero(ss[0].pcs);
      assert WillReturn(ss[0].pcs[0]) && !FoundNothing(ss[0].pcs[0]);
    } else {
      BehaviourKeepsInv(c, ss, acts, n - 1);
      StepKeepsInv(c, ss[n - 1], acts[n - 1]);
    }
  }

  // ----- Main results

  ghost predicate Returned(s: Pool) {
    forall g | 0 <= g < |s.pcs| :: s.pcs[g] == Gone
  }

  /**
    When RunUntilIdle returns without an error and without being cancelled, no job is claimable
    at the clock reading of its last Claim, whatever its handlers queued and whenever they did.
  */
  lemma ReturnsOnlyWhenNothingIsDue(c: Config, ss: seq<Pool>, acts: seq<Action>, n: nat)
    requires c.Valid() && Behaviour(c, ss, acts) && n < |ss|
    requires Returned(ss[n]) && !ss[n].runErr && !ss[n].cancelled
    ensures ss[n].lastReading.Some? && NothingDue(ss[n].table, ss[n].lastReading.value)
  {
    BehaviourKeepsInv(c, ss, acts, n);
    assert forall g | 0 <= g < |ss[n].pcs| :: FoundNothing(ss[n].pcs[g]);
  }

  /**
    The pool never sits waiting for ever. If every goroutine waits or has left, and no error
    occurred, the idle channel is closed, so everyone who still waits can leave.
  */
  lemma EveryoneWaitingMeansIdle(c: Config, ss: seq<Pool>, acts: seq<Action>, n: nat)
    requires c.Valid() && Behaviour(c, ss, acts) && n < |ss| && !ss[n].runErr && !ss[n].cancelled
    requires forall g | 0 <= g < |ss[n].pcs| :: ss[n].pcs[g] == Waiting || ss[n].pcs[g] == Gone
    ensures ss[n].idleClosed
  {
    BehaviourKeepsInv(c, ss, acts, n);
    CountZero(ss[n].pcs);
  }

  /** A job that a goroutine took is not claimable by anyone until its lease is over, and no other row changes. */
  lemma TakenJobIsNotClaimable(c: Config, s: Pool, g: nat, k: Slot, t: Time)
    requires c.Valid() && Enabled(s, Take(g, Some(k))) && t <= s.pcs[g].now + c.lease
    ensures var u := Apply(c, s, Take(g, Some(k))).table;
      && k in u && !Claimable(u[k], t) && u[k].attempts == s.table[k].attempts + 1
      && u.Keys == s.table.Keys && forall o | o in s.table && o != k :: u[o] == s.table[o]
  {
  }

  /** After its sweep a goroutine finds no job whose lease ran out on its last attempt. */
  lemma SweptPoolHasNoSpentJob(c: Config, s: Pool, g: nat, k: Slot)
    requires c.Valid() && Enabled(s, Sweep(g)) && k in s.table
    ensures var u := Apply(c, s, Sweep(g)).table;
      && k in u && !(u[k].status == Running && u[k].lockedUntil.Some? && u[k].lockedUntil.value < s.pcs[g].now
                     && u[k].attempts >= Limit(u[k], c))
      && (u[k] != s.table[k] ==> u[k].status == Failed)
  {
  }

  /** After the poll interval a waiting goroutine goes round again. */
  lemma PollingGoesRound(c: Config, s: Pool, g: nat)
    requires c.Valid() && Enabled(s, Poll(g)) && !s.cancelled
    ensures Enabled(Apply(c, s, Poll(g)), Enter(g)) && Apply(c, s, Poll(g)).(pcs := s.pcs) == s
  {
  }

  /** A handler may leave any table behind, and time may go on by any amount. */
  lemma NothingIsRuledOut(c: Config, s: Pool, g: nat, t: Table, to: Time)
    requires c.Valid()
    ensures g < |s.pcs| && s.pcs[g] == Working ==> Enabled(s, Action.Handle(g, t)) && Apply(c, s, Action.Handle(g, t)) == s.(table := t)
    ensures to >= s.clock ==> Enabled(s, Tick(to)) && Apply(c, s, Tick(to)) == s.(clock := to)
  {
  }

  ghost predicate WasClock(ss: seq<Pool>, n: nat, t: Time) {
    exists m :: 0 <= m <= n < |ss| && ss[m].clock == t
  }

  ghost predicate ReadingsOk(ss: seq<Pool>, n: nat)
    requires n < |ss|
  {
    && (forall g | 0 <= g < |ss[n].pcs| && ss[n].pcs[g].Looking? :: WasClock(ss, n, ss[n].pcs[g].now))
    && (ss[n].lastReading.Some? ==> WasClock(ss, n, ss[n].lastReading.value))
  }

  lemma ReadingsAfter(c: Config, s: Pool, a: Action)
    requires c.Valid() && Enabled(s, a)
    ensures var s' := Apply(c, s, a);
      && (forall g | 0 <= g < |s'.pcs| && s'.pcs[g].Looking? ::
            s'.pcs[g].now == s.clock || (g < |s.pcs| && s.pcs[g].Looking? && s.pcs[g].now == s'.pcs[g].now))
      && (s'.lastReading.Some? ==>
            s'.lastReading == s.lastReading || (a.Take? && a.g < |s.pcs| && s.pcs[a.g].Looking? && s'.lastReading.value == s.pcs[a.g].now))
  {
  }

  /** Every reading that a Claim works with, and so the last one, is what the clock showed at some moment. */
  lemma {:induction false} ReadingsAreClocks(c: Config, ss: seq<Pool>, acts: seq<Action>, n: nat)
    requires c.Valid() && Behaviour(c, ss, acts) && n < |ss|
    ensures ReadingsOk(ss, n)
  {
    hide Apply, Enabled;
    if n > 0 {
      ReadingsAreClocks(c, ss, acts, n - 1);
      ReadingsAfter(c, ss[n - 1], acts[n - 1]);
      forall t: Time | WasClock(ss, n - 1, t) ensures WasClock(ss, n, t) {
        var m :| 0 <= m <= n - 1 < |ss| && ss[m].clock == t;
      }
      assert WasClock(ss, n, ss[n - 1].clock);
    }
  }

  /** A goroutine leaves when it was cancelled, when the idle channel is closed, or when it closes the channel itself. */
  lemma WhoLeaves(c: Config, s: Pool, a: Action, g: nat)
    requires c.Valid() && Enabled(s, a) && g < |s.pcs| == |Apply(c, s, a).pcs|
    requires s.pcs[g] != Gone && Apply(c, s, a).pcs[g] == Gone
    ensures s.cancelled || s.idleClosed || (s.pcs[g] == Deciding(false, false, true) && Apply(c, s, a).idleClosed)
  {
  }

  lemma SignalsStay(c: Config, s: Pool, a: Action)
    requires c.Valid() && Enabled(s, a)
    ensures s.cancelled ==> Apply(c, s, a).cancelled
    ensures s.idleClosed ==> Apply(c, s, a).idleClosed
  {
  }

  /** As long as the pool is neither idle nor cancelled, every goroutine is there and goes on polling. */
  lemma {:induction false} NobodyLeavesEarly(c: Config, ss: seq<Pool>, acts: seq<Action>, n: nat, g: nat)
    requires c.Valid() && Behaviour(c, ss, acts) && n < |ss| && g < |ss[n].pcs| && !ss[n].idleClosed && !ss[n].cancelled
    ensures ss[n].pcs[g] != Gone
  {
    hide Apply, Enabled;
    if n > 0 {
      SignalsStay(c, ss[n - 1], acts[n - 1]);
      OneMoves(c, ss[n - 1], acts[n - 1]);
      NobodyLeavesEarly(c, ss, acts, n - 1, g);
      if ss[n].pcs[g] == Gone { WhoLeaves(c, ss[n - 1], acts[n - 1], g); }
    }
  }

  /** A goroutine sees busy == 0 exactly when no goroutine is claiming, working or reporting. */
  lemma LastOneSeesNobodyBusy(c: Config, ss: seq<Pool>, acts: seq<Action>, n: nat, g: nat)
    requires c.Valid() && Behaviour(c, ss, acts) && n < |acts| && acts[n] == Leave(g)
    ensures g < |ss[n + 1].pcs| && ss[n + 1].pcs[g].Deciding?
    ensures ss[n + 1].pcs[g].lastOne <==> NobodyBusy(ss[n + 1].pcs)
  {
    BehaviourKeepsInv(c, ss, acts, n + 1);
    CountZero(ss[n + 1].pcs);
  }
}
