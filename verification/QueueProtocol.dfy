/**
  The queue under any number of workers (internal/queue/queue.go).

  Every SQL statement is one atomic step, and the steps of different workers interleave
  freely. Claim is three steps: it reads the clock, runs the sweep, and takes a job, and
  other workers may act between them. Taking a job passes over rows that another statement
  holds at that moment (SKIP LOCKED), so it may get any job that is due, or none. A worker may
  report on any handle it was ever given, at any later time and more than once. The clock may go
  anywhere between two steps, so every worker may as well have a clock of its own.

  `lives` is a history that the code does not keep. It has one entry for each time a row
  entered the queue from scratch, with every attempt number that life handed out and the
  number of done or failed outcomes that were recorded for it.
*/
module QueueProtocol {
  import opened Prelude
  import opened JobTable

  datatype Life = Life(slot: Slot, id: nat, limit: nat, claims: seq<nat>, outcomes: nat)

  datatype Claiming = Claiming(now: Time, swept: bool)

  datatype State = State(
    table: Table,
    lives: seq<Life>,
    nextId: nat,
    clock: Time,
    pending: map<nat, Claiming>,
    issued: set<Handle>)

  datatype Action =
    | Tick(to: Time)
    | Enqueue(slot: Slot, payload: string, runAfter: Option<Time>, max: nat)
    | ReadClock(w: nat)
    | Sweep(w: nat)
    | Take(w: nat, choice: Option<Slot>)
    | Complete(h: Handle)
    | Fail(h: Handle, msg: string)
    | Drop(slots: set<Slot>, why: string)
    | Interrupt(slots: set<Slot>, why: string)
    | Prune(slots: set<Slot>)

  ghost predicate Init(s: State) {
    s.table == map[] && s.lives == [] && s.pending == map[] && s.issued == {}
  }

  /** What the code lets happen next. */
  ghost predicate Enabled(s: State, a: Action) {
    match a
    case Tick(_) => true
    case Enqueue(_, _, _, _) => true
    case ReadClock(w) => w !in s.pending
    case Sweep(w) => w in s.pending && !s.pending[w].swept
    case Take(w, choice) =>
      && w in s.pending && s.pending[w].swept
      && (choice.Some? ==> choice.value in s.table && Due(s.table[choice.value], s.pending[w].now))
    case Complete(h) => h in s.issued
    case Fail(h, _) => h in s.issued
    case Drop(_, _) => true
    case Interrupt(_, _) => true
    case Prune(_) => true
  }

  /** A row that was outstanding and is finished now, in the same life. */
  ghost predicate JustEnded(t: Table, u: Table, slot: Slot, life: nat) {
    && slot in t && Outstanding(t[slot]) && t[slot].life == life
    && slot in u && Finished(u[slot]) && u[slot].life == life
  }

  ghost function Recorded(lives: seq<Life>, t: Table, u: Table): (r: seq<Life>)
    ensures |r| == |lives|
    ensures forall i {:trigger r[i]} | 0 <= i < |r| ::
      r[i] == (if JustEnded(t, u, lives[i].slot, i) then lives[i].(outcomes := lives[i].outcomes + 1) else lives[i])
  {
    seq(|lives|, i requires 0 <= i < |lives| =>
      if JustEnded(t, u, lives[i].slot, i) then lives[i].(outcomes := lives[i].outcomes + 1) else lives[i])
  }

  ghost function Updated(s: State, u: Table): State {
    s.(table := u, lives := Recorded(s.lives, s.table, u))
  }

  ghost function Apply(c: Config, s: State, a: Action): State
    requires c.Valid() && Enabled(s, a)
  {
    match a
    case Tick(to) => s.(clock := to)
    case Enqueue(slot, payload, runAfter, max) =>
      if !Free(s.table, slot) then s else
      var u := Enqueued(s.table, slot, payload, runAfter, max, s.clock, s.nextId, |s.lives|);
      s.(table := u, nextId := s.nextId + 1,
         lives := s.lives + [Life(slot, u[slot].id, RequestedLimit(max, c), [], 0)])
    case ReadClock(w) => s.(pending := s.pending[w := Claiming(s.clock, false)])
    case Sweep(w) =>
      Updated(s, Swept(s.table, s.pending[w].now, c)).(pending := s.pending[w := Claiming(s.pending[w].now, true)])
    case Take(w, choice) =>
      var rest := s.(pending := s.pending - {w});
      if choice.None? then rest else Claimed(c, rest, choice.value, s.pending[w].now)
    case Complete(h) => Updated(s, Completed(s.table, h, s.clock))
    case Fail(h, msg) => Updated(s, FailedAttempt(s.table, h, msg, s.clock, c))
    case Drop(slots, why) => Updated(s, Dropped(s.table, slots, why, s.clock))
    case Interrupt(slots, why) => Updated(s, Interrupted(s.table, slots, why, s.clock))
    case Prune(slots) => s.(table := Pruned(s.table, slots))
  }

  /** Statement two of Claim gave out the job at `slot`. */
  ghost function Claimed(c: Config, s: State, slot: Slot, now: Time): State
    requires c.Valid() && slot in s.table
  {
    var u := Taken(s.table, slot, now, c);
    var n := u[slot].life;
    s.(table := u,
       issued := s.issued + {HandleOf(slot, u[slot], c)},
       lives := if n < |s.lives|
                then s.lives[n := s.lives[n].(claims := s.lives[n].claims + [u[slot].attempts])]
                else s.lives)
  }

  /** Any finite interleaving from an empty queue. */
  ghost predicate Behaviour(c: Config, ss: seq<State>, acts: seq<Action>)
    requires c.Valid()
  {
    && |ss| == |acts| + 1 && Init(ss[0])
    && forall i {:trigger acts[i]} | 0 <= i < |acts| :: Enabled(ss[i], acts[i]) && ss[i + 1] == Apply(c, ss[i], acts[i])
  }

  // ----- What every step keeps

  ghost predicate CountsUp(claims: seq<nat>) {
    forall j | 0 <= j < |claims| :: claims[j] == j + 1
  }

  ghost predicate RowOk(c: Config, s: State, k: Slot)
    requires c.Valid() && k in s.table
  {
    var r := s.table[k];
    && r.id < s.nextId
    && (r.status == Running <==> r.lockedUntil.Some?)
    && (r.status == Running ==> r.attempts >= 1)
    && r.life < |s.lives|
    && (r.maxAttempts.Some? ==> r.maxAttempts.value > 0)
    && s.lives[r.life] == Life(k, r.id, Limit(r, c), s.lives[r.life].claims, if Finished(r) then 1 else 0)
    && |s.lives[r.life].claims| == r.attempts
  }

  ghost predicate LifeOk(s: State, i: nat)
    requires i < |s.lives|
  {
    var l := s.lives[i];
    && CountsUp(l.claims) && l.limit >= 1 && l.outcomes <= 1
    && (l.outcomes == 1 || (l.slot in s.table && s.table[l.slot].life == i))
  }

  ghost predicate HandleOk(s: State, h: Handle) {
    && h.life < |s.lives| && 1 <= h.attempt <= |s.lives[h.life].claims|
    && s.lives[h.life].slot == h.slot && s.lives[h.life].id == h.id && s.lives[h.life].limit == h.limit
  }

  ghost predicate Inv(c: Config, s: State)
    requires c.Valid()
  {
    && UniqueIds(s.table)
    && (forall k | k in s.table :: RowOk(c, s, k))
    && (forall i | 0 <= i < |s.lives| :: LifeOk(s, i))
    && (forall h | h in s.issued :: HandleOk(s, h))
  }

  /** A statement that keeps every key, id, life and attempt count, and revives no finished row. */
  ghost predicate KeepsLives(c: Config, t: Table, u: Table)
    requires c.Valid()
  {
    && u.Keys == t.Keys
    && forall k {:trigger u[k]} {:trigger t[k]} | k in t ::
      && u[k].id == t[k].id && u[k].life == t[k].life && u[k].attempts == t[k].attempts
      && u[k].maxAttempts == t[k].maxAttempts
      && (Finished(t[k]) ==> u[k] == t[k])
      && (u[k].status == Running <==> u[k].lockedUntil.Some?)
      && (u[k].status == Running ==> u[k] == t[k])
  }

  lemma UpdateKeepsInv(c: Config, s: State, u: Table)
    requires c.Valid() && Inv(c, s) && KeepsLives(c, s.table, u)
    ensures Inv(c, Updated(s, u))
  {
    var s' := Updated(s, u);
    forall k | k in s'.table ensures RowOk(c, s', k) {
      assert RowOk(c, s, k);
      assert s'.lives[u[k].life].slot == k;
    }
    forall i | 0 <= i < |s'.lives| ensures LifeOk(s', i) {
      assert LifeOk(s, i);
      var k := s.lives[i].slot;
      if JustEnded(s.table, u, k, i) {
        assert RowOk(c, s, k);
      }
    }
    forall h | h in s'.issued ensures HandleOk(s', h) {
      assert HandleOk(s, h);
    }
  }

  /** s' is s after an Enqueue that put row r in the queue from scratch. */
  ghost predicate Restarted(c: Config, s: State, s': State, slot: Slot, r: Row)
    requires c.Valid()
  {
    && (slot in s.table ==> Finished(s.table[slot]))
    && s'.table == s.table[slot := r] && s'.lives == s.lives + [Life(slot, r.id, Limit(r, c), [], 0)]
    && s'.issued == s.issued && s'.pending == s.pending && s'.clock == s.clock && s'.nextId == s.nextId + 1
    && r.status == Queued && r.attempts == 0 && r.lockedUntil.None? && r.life == |s.lives|
    && r.id == (if slot in s.table then s.table[slot].id else s.nextId)
    && (r.maxAttempts.Some? ==> r.maxAttempts.value > 0)
  }

  lemma RestartKeepsRows(c: Config, s: State, s': State, slot: Slot, r: Row)
    requires c.Valid() && Inv(c, s) && Restarted(c, s, s', slot, r)
    ensures UniqueIds(s'.table) && forall k | k in s'.table :: RowOk(c, s', k)
  {
    forall k | k in s'.table ensures RowOk(c, s', k) {
      if k in s.table { assert RowOk(c, s, k); }
    }
    forall k | k in s.table && s.table[k].id == r.id ensures k == slot {
      assert RowOk(c, s, k);
    }
  }

  lemma RestartKeepsLives(c: Config, s: State, s': State, slot: Slot, r: Row)
    requires c.Valid() && Inv(c, s) && Restarted(c, s, s', slot, r)
    ensures forall i | 0 <= i < |s'.lives| :: LifeOk(s', i)
    ensures forall h | h in s'.issued :: HandleOk(s', h)
  {
    forall i | 0 <= i < |s'.lives| ensures LifeOk(s', i) {
      if i < |s.lives| {
        assert LifeOk(s, i);
        if slot in s.table { assert RowOk(c, s, slot); }
      }
    }
    forall h | h in s'.issued ensures HandleOk(s', h) { assert HandleOk(s, h); }
  }

  lemma EnqueueKeepsInv(c: Config, s: State, a: Action)
    requires c.Valid() && Inv(c, s) && a.Enqueue?
    ensures Inv(c, Apply(c, s, a))
  {
    if Free(s.table, a.slot) {
      var s' := Apply(c, s, a);
      var r := s'.table[a.slot];
      RestartKeepsRows(c, s, s', a.slot, r);
      RestartKeepsLives(c, s, s', a.slot, r);
    }
  }

  lemma ClaimKeepsRows(c: Config, s: State, slot: Slot, now: Time)
    requires c.Valid() && Inv(c, s) && slot in s.table && Outstanding(s.table[slot])
    ensures var s' := Claimed(c, s, slot, now);
      UniqueIds(s'.table) && forall k | k in s'.table :: RowOk(c, s', k)
  {
    var s' := Claimed(c, s, slot, now);
    assert RowOk(c, s, slot);
    forall k | k in s'.table ensures RowOk(c, s', k) { assert RowOk(c, s, k); }
  }

  lemma ClaimKeepsInv(c: Config, s: State, slot: Slot, now: Time)
    requires c.Valid() && Inv(c, s) && slot in s.table && Outstanding(s.table[slot])
    ensures Inv(c, Claimed(c, s, slot, now))
  {
    hide Claimed, RowOk, LifeOk, HandleOk;
    ClaimKeepsRows(c, s, slot, now);
    ClaimKeepsLives(c, s, slot, now);
    ClaimKeepsHandles(c, s, slot, now);
  }

  lemma ClaimKeepsLives(c: Config, s: State, slot: Slot, now: Time)
    requires c.Valid() && Inv(c, s) && slot in s.table && Outstanding(s.table[slot])
    ensures var s' := Claimed(c, s, slot, now); forall i | 0 <= i < |s'.lives| :: LifeOk(s', i)
  {
    var s' := Claimed(c, s, slot, now);
    assert RowOk(c, s, slot);
    forall i | 0 <= i < |s'.lives| ensures LifeOk(s', i) { assert LifeOk(s, i); }
  }

  lemma ClaimKeepsHandles(c: Config, s: State, slot: Slot, now: Time)
    requires c.Valid() && Inv(c, s) && slot in s.table && Outstanding(s.table[slot])
    ensures var s' := Claimed(c, s, slot, now); forall h | h in s'.issued :: HandleOk(s', h)
  {
    var s' := Claimed(c, s, slot, now);
    assert RowOk(c, s, slot);
    forall h | h in s'.issued ensures HandleOk(s', h) {
      if h in s.issued { assert HandleOk(s, h); }
    }
  }

  lemma PruneKeepsInv(c: Config, s: State, slots: set<Slot>)
    requires c.Valid() && Inv(c, s)
    ensures Inv(c, Apply(c, s, Prune(slots)))
  {
    var s' := Apply(c, s, Prune(slots));
    forall k | k in s'.table ensures RowOk(c, s', k) { assert RowOk(c, s, k); }
    forall i | 0 <= i < |s'.lives| ensures LifeOk(s', i) {
      assert LifeOk(s, i);
      if s.lives[i].slot in s.table { assert RowOk(c, s, s.lives[i].slot); }
    }
    forall h | h in s'.issued ensures HandleOk(s', h) { assert HandleOk(s, h); }
  }

  lemma StepKeepsInv(c: Config, s: State, a: Action)
    requires c.Valid() && Inv(c, s) && Enabled(s, a)
    ensures Inv(c, Apply(c, s, a))
  {
    match a
    case Tick(_) => Reframe(c, s, Apply(c, s, a));
    case ReadClock(_) => Reframe(c, s, Apply(c, s, a));
    case Enqueue(_, _, _, _) => EnqueueKeepsInv(c, s, a);
    case Prune(slots) => PruneKeepsInv(c, s, slots);
    case Take(w, choice) =>
      var rest := s.(pending := s.pending - {w});
      Reframe(c, s, rest);
      if choice.Some? { ClaimKeepsInv(c, rest, choice.value, s.pending[w].now); }
    case _ => RowUpdateKeepsInv(c, s, a);
  }

  /** Steps that leave the table and the history alone. */
  lemma Reframe(c: Config, s: State, s': State)
    requires c.Valid() && Inv(c, s)
    requires s'.table == s.table && s'.lives == s.lives && s'.nextId == s.nextId && s'.issued == s.issued
    ensures Inv(c, s')
  {
    forall k | k in s'.table ensures RowOk(c, s', k) { assert RowOk(c, s, k); }
    forall i | 0 <= i < |s'.lives| ensures LifeOk(s', i) { assert LifeOk(s, i); }
    forall h | h in s'.issued ensures HandleOk(s', h) { assert HandleOk(s, h); }
  }

  /** A lease is set exactly while a row runs. */
  ghost predicate Leased(t: Table) {
    forall k | k in t :: t[k].status == Running <==> t[k].lockedUntil.Some?
  }

  lemma InvImpliesLeased(c: Config, s: State)
    requires c.Valid() && Inv(c, s)
    ensures Leased(s.table)
  {
  }

  lemma FinishKeepsLives(c: Config, t: Table, h: Handle, msg: string, now: Time)
    requires c.Valid() && Leased(t)
    ensures KeepsLives(c, t, Completed(t, h, now))
    ensures KeepsLives(c, t, FailedAttempt(t, h, msg, now, c))
  {
  }

  lemma SweepKeepsLives(c: Config, t: Table, now: Time)
    requires c.Valid() && Leased(t)
    ensures KeepsLives(c, t, Swept(t, now, c))
  {
  }

  lemma DropKeepsLives(c: Config, t: Table, slots: set<Slot>, why: string, now: Time)
    requires c.Valid() && Leased(t)
    ensures KeepsLives(c, t, Dropped(t, slots, why, now))
    ensures KeepsLives(c, t, Interrupted(t, slots, why, now))
  {
  }

  lemma RowUpdateKeepsInv(c: Config, s: State, a: Action)
    requires c.Valid() && Inv(c, s) && Enabled(s, a)
    requires a.Sweep? || a.Complete? || a.Fail? || a.Drop? || a.Interrupt?
    ensures Inv(c, Apply(c, s, a))
  {
    InvImpliesLeased(c, s);
    match a
    case Sweep(w) =>
      var u := Swept(s.table, s.pending[w].now, c);
      SweepKeepsLives(c, s.table, s.pending[w].now);
      UpdateKeepsInv(c, s, u);
      Reframe(c, Updated(s, u), Apply(c, s, a));
    case Complete(h) =>
      FinishKeepsLives(c, s.table, h, "", s.clock);
      UpdateKeepsInv(c, s, Completed(s.table, h, s.clock));
    case Fail(h, msg) =>
      FinishKeepsLives(c, s.table, h, msg, s.clock);
      UpdateKeepsInv(c, s, FailedAttempt(s.table, h, msg, s.clock, c));
    case Drop(slots, why) =>
      DropKeepsLives(c, s.table, slots, why, s.clock);
      UpdateKeepsInv(c, s, Dropped(s.table, slots, why, s.clock));
    case Interrupt(slots, why) =>
      DropKeepsLives(c, s.table, slots, why, s.clock);
      UpdateKeepsInv(c, s, Interrupted(s.table, slots, why, s.clock));
  }

  lemma {:induction false} BehaviourKeepsInv(c: Config, ss: seq<State>, acts: seq<Action>, n: nat)
    requires c.Valid() && Behaviour(c, ss, acts) && n < |ss|
    ensures Inv(c, ss[n])
  {
    if n > 0 {
      BehaviourKeepsInv(c, ss, acts, n - 1);
      StepKeepsInv(c, ss[n - 1], acts[n - 1]);
    }
  }

  // ----- Main results that need no assumption

  /**
    Each life hands out the attempt numbers 1, 2, 3 and so on, each once and in order, and at
    most one done or failed outcome is recorded for it. A row that waits or runs is in a life
    with no outcome yet.
  */
  lemma AttemptsAndOutcomesPerLife(c: Config, ss: seq<State>, acts: seq<Action>, n: nat, i: nat)
    requires c.Valid() && Behaviour(c, ss, acts) && n < |ss| && i < |ss[n].lives|
    ensures forall j | 0 <= j < |ss[n].lives[i].claims| :: ss[n].lives[i].claims[j] == j + 1
    ensures ss[n].lives[i].outcomes <= 1
    ensures ss[n].lives[i].outcomes == 0 <==>
      exists k :: k in ss[n].table && ss[n].table[k].life == i && Outstanding(ss[n].table[k])
  {
    BehaviourKeepsInv(c, ss, acts, n);
    var s := ss[n];
    assert LifeOk(s, i);
    if s.lives[i].outcomes == 0 {
      assert RowOk(c, s, s.lives[i].slot);
    }
    forall k | k in s.table && s.table[k].life == i && Outstanding(s.table[k]) ensures s.lives[i].outcomes == 0 {
      assert RowOk(c, s, k);
    }
  }

  /**
    Fencing. While the row is still in the life a handle was claimed in, the handle's report is
    recorded exactly when the row is running and no later attempt of that life was handed out.
    Otherwise the report changes no row.
  */
  lemma ReportCountsForNewestClaimOnly(c: Config, ss: seq<State>, acts: seq<Action>, n: nat, h: Handle, msg: string)
    requires c.Valid() && Behaviour(c, ss, acts) && n < |ss| && h in ss[n].issued
    requires h.slot in ss[n].table && ss[n].table[h.slot].life == h.life
    ensures Holds(ss[n].table, h) <==>
      ss[n].table[h.slot].status == Running
      && forall g | g in ss[n].issued && g.life == h.life :: g.attempt <= h.attempt
    ensures !Holds(ss[n].table, h) ==>
      && Apply(c, ss[n], Complete(h)).table == ss[n].table
      && Apply(c, ss[n], Fail(h, msg)).table == ss[n].table
  {
    BehaviourKeepsInv(c, ss, acts, n);
    BehaviourIssuesEveryClaim(c, ss, acts, n, h.life);
    var s := ss[n];
    assert RowOk(c, s, h.slot) && HandleOk(s, h);
    forall g | g in s.issued && g.life == h.life ensures g.attempt <= s.table[h.slot].attempts {
      assert HandleOk(s, g);
    }
    if s.table[h.slot].status == Running && !Holds(s.table, h) {
      assert h.attempt < s.table[h.slot].attempts;
      assert ClaimOf(s.lives[h.life], h.life, s.table[h.slot].attempts) in s.issued;
    }
  }

  /**
    Across lives. A report on any handle ever given out is recorded exactly when the row with its
    id runs and the life the row is in now has handed out as many attempts as the handle says.
  */
  lemma WhatAReportMeets(c: Config, ss: seq<State>, acts: seq<Action>, n: nat, h: Handle)
    requires c.Valid() && Behaviour(c, ss, acts) && n < |ss| && h in ss[n].issued
    ensures Holds(ss[n].table, h) <==>
      && h.slot in ss[n].table && ss[n].table[h.slot].id == h.id && ss[n].table[h.slot].status == Running
      && ss[n].table[h.slot].life < |ss[n].lives| && |ss[n].lives[ss[n].table[h.slot].life].claims| == h.attempt
    ensures Holds(ss[n].table, h) && ss[n].table[h.slot].life != h.life ==>
      h.life < |ss[n].lives| && ss[n].lives[h.life].slot == h.slot && ss[n].lives[h.life].outcomes == 1
  {
    BehaviourKeepsInv(c, ss, acts, n);
    assert HandleOk(ss[n], h) && LifeOk(ss[n], h.life);
    if h.slot in ss[n].table { assert RowOk(c, ss[n], h.slot); }
  }

  /**
    What a report that is recorded does. Complete ends the job as done. Fail ends it as failed when the
    handle has no attempt left, and queues it again otherwise. The outcome counts for the life the row is in.
  */
  lemma WhatAReportDoes(c: Config, s: State, h: Handle, msg: string)
    requires c.Valid() && Inv(c, s) && h in s.issued && Holds(s.table, h)
    ensures var s', i := Apply(c, s, Complete(h)), s.table[h.slot].life;
      && s'.table[h.slot].status == Done && s'.table[h.slot].lockedUntil.None? && s'.lives[i].outcomes == 1
      && forall k | k in s.table && k != h.slot :: s'.table[k] == s.table[k]
    ensures var s', i := Apply(c, s, Fail(h, msg)), s.table[h.slot].life;
      && s'.table[h.slot].status == (if h.attempt >= h.limit then Failed else Queued)
      && s'.table[h.slot].lockedUntil.None? && s'.lives[i].outcomes == (if h.attempt >= h.limit then 1 else 0)
      && forall k | k in s.table && k != h.slot :: s'.table[k] == s.table[k]
  {
    assert RowOk(c, s, h.slot) && HandleOk(s, h) && LifeOk(s, h.life);
  }

  /** Pruning deletes finished jobs that are done, and nothing else of the table or its history. */
  lemma PruningDeletesDoneJobs(c: Config, s: State, slots: set<Slot>, k: Slot)
    requires c.Valid() && k in s.table
    ensures var s' := Apply(c, s, Prune(slots));
      && (k in s'.table <==> k !in slots || s.table[k].status != Done)
      && (k in s'.table ==> s'.table[k] == s.table[k]) && s'.lives == s.lives && s'.issued == s.issued
  {
  }

  /** Every attempt number in the history belongs to a handle some worker was given. */
  ghost predicate AllIssued(s: State, i: nat)
    requires i < |s.lives|
  {
    forall a | 1 <= a <= |s.lives[i].claims| :: ClaimOf(s.lives[i], i, a) in s.issued
  }

  ghost function ClaimOf(l: Life, i: nat, attempt: nat): Handle {
    Handle(l.slot, l.id, i, attempt, l.limit)
  }

  lemma {:induction false} BehaviourIssuesEveryClaim(c: Config, ss: seq<State>, acts: seq<Action>, n: nat, i: nat)
    requires c.Valid() && Behaviour(c, ss, acts) && n < |ss| && i < |ss[n].lives|
    ensures AllIssued(ss[n], i)
  {
    if n > 0 {
      var p, a := ss[n - 1], acts[n - 1];
      BehaviourKeepsInv(c, ss, acts, n - 1);
      if i < |p.lives| {
        BehaviourIssuesEveryClaim(c, ss, acts, n - 1, i);
        StepIssuesEveryClaim(c, p, a, i);
      }
    }
  }

  lemma StepIssuesEveryClaim(c: Config, p: State, a: Action, i: nat)
    requires c.Valid() && Inv(c, p) && Enabled(p, a) && i < |p.lives| && AllIssued(p, i)
    ensures AllIssued(Apply(c, p, a), i)
  {
    var s := Apply(c, p, a);
    if a.Take? && a.choice.Some? && p.table[a.choice.value].life == i {
      var k := a.choice.value;
      assert RowOk(c, p, k);
      assert HandleOf(k, s.table[k], c) in s.issued;
      forall b | 1 <= b <= |s.lives[i].claims| ensures ClaimOf(s.lives[i], i, b) in s.issued {
        if b <= |p.lives[i].claims| { assert ClaimOf(p.lives[i], i, b) in p.issued; }
      }
    } else {
      assert s.issued >= p.issued && s.lives[i] == p.lives[i].(outcomes := s.lives[i].outcomes);
      forall b | 1 <= b <= |s.lives[i].claims| ensures ClaimOf(s.lives[i], i, b) in s.issued {
        assert ClaimOf(p.lives[i], i, b) in p.issued;
      }
    }
  }

  /** A life stays the life of the same row, gains attempts only, and never loses its outcome. */
  ghost predicate LivesOn(a: Life, b: Life) {
    b.slot == a.slot && b.id == a.id && b.limit == a.limit && a.claims <= b.claims && a.outcomes <= b.outcomes
  }

  lemma StepKeepsLife(c: Config, s: State, a: Action, i: nat)
    requires c.Valid() && Enabled(s, a) && i < |s.lives|
    ensures i < |Apply(c, s, a).lives| && LivesOn(s.lives[i], Apply(c, s, a).lives[i])
  {
  }

  lemma {:induction false} LifeGoesOn(c: Config, ss: seq<State>, acts: seq<Action>, m: nat, n: nat, i: nat)
    requires c.Valid() && Behaviour(c, ss, acts) && m <= n < |ss| && i < |ss[m].lives|
    ensures i < |ss[n].lives| && LivesOn(ss[m].lives[i], ss[n].lives[i])
  {
    hide Apply;
    if m < n {
      LifeGoesOn(c, ss, acts, m, n - 1, i);
      StepKeepsLife(c, ss[n - 1], acts[n - 1], i);
    }
  }

  /**
    A job that waits or runs is left alone until it ends: however often it is enqueued meanwhile,
    it is either still the same row in the same life, with the attempts it had, or that life has
    its done or failed outcome.
  */
  lemma OutstandingJobIsLeftAlone(c: Config, ss: seq<State>, acts: seq<Action>, m: nat, n: nat, k: Slot)
    requires c.Valid() && Behaviour(c, ss, acts) && m <= n < |ss| && k in ss[m].table && Outstanding(ss[m].table[k])
    ensures var i := ss[m].table[k].life;
      && i < |ss[m].lives| <= |ss[n].lives| && ss[m].lives[i].outcomes == 0
      && (ss[n].lives[i].outcomes == 1 ||
          (&& k in ss[n].table && Outstanding(ss[n].table[k]) && ss[n].table[k].life == i
           && ss[n].table[k].id == ss[m].table[k].id && ss[n].table[k].attempts >= ss[m].table[k].attempts))
  {
    BehaviourKeepsInv(c, ss, acts, m);
    BehaviourKeepsInv(c, ss, acts, n);
    assert RowOk(c, ss[m], k);
    var i := ss[m].table[k].life;
    LifeGoesOn(c, ss, acts, m, n, i);
    LifeGoesOn(c, ss, acts, m, n, |ss[m].lives| - 1);
    assert LifeOk(ss[n], i);
    if ss[n].lives[i].outcomes == 0 { assert RowOk(c, ss[n], k); }
  }

  // ----- The attempt limit

  /**
    When a Claim takes a job, no Claim that has swept by then read a time later than its own by
    more than the delay. With one clock this says that a Claim ends within the delay of its
    clock reading.
  */
  ghost predicate Prompt(s: State, a: Action, delay: int)
    requires Enabled(s, a)
  {
    a.Take? ==> forall v | v in s.pending && s.pending[v].swept :: s.pending[v].now <= s.pending[a.w].now + delay
  }

  /** The key that is enqueued keeps the attempts it was given first. */
  ghost predicate KeepsAttempts(c: Config, s: State, a: Action)
    requires c.Valid()
  {
    a.Enqueue? ==> forall l | l in s.lives && l.slot == a.slot :: l.limit == RequestedLimit(a.max, c)
  }

  /** The two things the code relies on for the job of key k. QueueLimits shows that neither can go. */
  ghost predicate Assumed(c: Config, s: State, a: Action, k: Slot)
    requires c.Valid() && Enabled(s, a)
  {
    && (a.Take? && a.choice == Some(k) ==> Prompt(s, a, c.lease))
    && (a.Enqueue? && a.slot == k ==> KeepsAttempts(c, s, a))
  }

  ghost predicate Steady(c: Config, ss: seq<State>, acts: seq<Action>, k: Slot)
    requires c.Valid() && Behaviour(c, ss, acts)
  {
    forall i {:trigger acts[i]} | 0 <= i < |acts| :: Assumed(c, ss[i], acts[i], k)
  }

  ghost predicate RowInLimit(c: Config, s: State, k: Slot)
    requires c.Valid() && k in s.table
  {
    && s.table[k].attempts <= Limit(s.table[k], c)
    && (s.table[k].status == Queued ==> s.table[k].attempts < Limit(s.table[k], c))
    && forall w | w in s.pending && s.pending[w].swept && LeaseOver(s.table[k], s.pending[w].now) ::
         s.table[k].attempts < Limit(s.table[k], c)
  }

  ghost predicate LimitInv(c: Config, s: State, k: Slot)
    requires c.Valid()
  {
    && Inv(c, s)
    && (k in s.table ==> RowInLimit(c, s, k))
    && (forall i | 0 <= i < |s.lives| && s.lives[i].slot == k :: |s.lives[i].claims| <= s.lives[i].limit)
    && (forall i, j | 0 <= i < |s.lives| && 0 <= j < |s.lives| && s.lives[i].slot == k && s.lives[j].slot == k ::
          s.lives[i].limit == s.lives[j].limit)
  }

  /** Statements that queue no row keep every row within its limit. */
  lemma UpdateKeepsRowLimit(c: Config, s: State, u: Table, k: Slot)
    requires c.Valid() && KeepsLives(c, s.table, u) && k in u && RowInLimit(c, s, k)
    requires u[k].status == Queued ==> s.table[k].status == Queued || u[k].attempts < Limit(u[k], c)
    ensures RowInLimit(c, Updated(s, u), k)
  {
  }

  /** After its own sweep a Claim sees no expired lease on a last attempt. */
  lemma SweepKeepsRowLimit(c: Config, s: State, w: nat, k: Slot)
    requires c.Valid() && Inv(c, s) && Enabled(s, Sweep(w)) && k in s.table && RowInLimit(c, s, k)
    ensures RowInLimit(c, Apply(c, s, Sweep(w)), k)
  {
    InvImpliesLeased(c, s);
    SweepKeepsLives(c, s.table, s.pending[w].now);
    UpdateKeepsRowLimit(c, s, Swept(s.table, s.pending[w].now, c), k);
  }

  /** A lease set by a prompt Claim is not over for any Claim that has swept before. */
  lemma TakeKeepsRowLimit(c: Config, s: State, w: nat, slot: Slot, k: Slot)
    requires c.Valid() && Inv(c, s) && Enabled(s, Take(w, Some(slot))) && Assumed(c, s, Take(w, Some(slot)), k)
    requires k in s.table && RowInLimit(c, s, k)
    ensures RowInLimit(c, Apply(c, s, Take(w, Some(slot))), k)
  {
    assert RowOk(c, s, k);
  }

  /** A handle that holds a row carries the row's limit, also when it is from an older life of the key. */
  lemma HolderKnowsLimit(c: Config, s: State, h: Handle)
    requires c.Valid() && LimitInv(c, s, h.slot) && h in s.issued && Holds(s.table, h)
    ensures h.limit == Limit(s.table[h.slot], c) && h.limit >= 1
  {
  }

  /** So a failed attempt is queued again only below the limit. */
  lemma FailQueuesBelowLimit(c: Config, t: Table, h: Handle, msg: string, now: Time, k: Slot)
    requires c.Valid() && k in t && (Holds(t, h) && h.slot == k ==> h.limit == Limit(t[k], c) && h.limit >= 1)
    requires t[k].attempts <= Limit(t[k], c)
    ensures var u := FailedAttempt(t, h, msg, now, c);
      k in u && (u[k].status == Queued ==> t[k].status == Queued || u[k].attempts < Limit(u[k], c))
  {
  }

  lemma FailKeepsRowLimit(c: Config, s: State, h: Handle, msg: string, k: Slot)
    requires c.Valid() && Leased(s.table) && k in s.table && RowInLimit(c, s, k)
    requires Holds(s.table, h) && h.slot == k ==> h.limit == Limit(s.table[k], c) && h.limit >= 1
    ensures RowInLimit(c, Updated(s, FailedAttempt(s.table, h, msg, s.clock, c)), k)
  {
    hide FailedAttempt, KeepsLives;
    FinishKeepsLives(c, s.table, h, msg, s.clock);
    FailQueuesBelowLimit(c, s.table, h, msg, s.clock, k);
    UpdateKeepsRowLimit(c, s, FailedAttempt(s.table, h, msg, s.clock, c), k);
  }

  lemma CompleteKeepsRowLimit(c: Config, s: State, h: Handle, k: Slot)
    requires c.Valid() && Leased(s.table) && k in s.table && RowInLimit(c, s, k)
    ensures RowInLimit(c, Updated(s, Completed(s.table, h, s.clock)), k)
  {
  }

  lemma DropKeepsRowLimit(c: Config, s: State, slots: set<Slot>, why: string, k: Slot)
    requires c.Valid() && Leased(s.table) && k in s.table && RowInLimit(c, s, k)
    ensures RowInLimit(c, Updated(s, Dropped(s.table, slots, why, s.clock)), k)
    ensures RowInLimit(c, Updated(s, Interrupted(s.table, slots, why, s.clock)), k)
  {
  }

  /** Steps that claim nothing and record no outcome. */
  lemma OtherStepKeepsRowLimit(c: Config, s: State, a: Action, k: Slot)
    requires c.Valid() && Enabled(s, a) && k in Apply(c, s, a).table
    requires a.Tick? || a.Enqueue? || a.ReadClock? || a.Prune? || (a.Take? && a.choice.None?)
    requires k in s.table ==> RowInLimit(c, s, k)
    ensures RowInLimit(c, Apply(c, s, a), k)
  {
  }

  lemma StepKeepsRowLimit(c: Config, s: State, a: Action, k: Slot)
    requires c.Valid() && LimitInv(c, s, k) && Enabled(s, a) && Assumed(c, s, a, k) && k in Apply(c, s, a).table
    ensures RowInLimit(c, Apply(c, s, a), k)
  {
    hide RowInLimit;
    InvImpliesLeased(c, s);
    match a
    case Sweep(w) => SweepKeepsRowLimit(c, s, w, k);
    case Take(w, Some(slot)) => TakeKeepsRowLimit(c, s, w, slot, k);
    case Fail(h, msg) =>
      if Holds(s.table, h) && h.slot == k { HolderKnowsLimit(c, s, h); }
      FailKeepsRowLimit(c, s, h, msg, k);
    case Complete(h) => CompleteKeepsRowLimit(c, s, h, k);
    case Drop(slots, why) => DropKeepsRowLimit(c, s, slots, why, k);
    case Interrupt(slots, why) => DropKeepsRowLimit(c, s, slots, why, k);
    case _ => OtherStepKeepsRowLimit(c, s, a, k);
  }

  /** Only Enqueue adds a life, and only taking a job adds a claim to one. */
  lemma LivesAfter(c: Config, s: State, a: Action, i: nat)
    requires c.Valid() && Inv(c, s) && Enabled(s, a) && i < |Apply(c, s, a).lives|
    ensures var l := Apply(c, s, a).lives[i];
      if i >= |s.lives| then a.Enqueue? && l == Life(a.slot, l.id, RequestedLimit(a.max, c), [], 0)
      else
        && l.slot == s.lives[i].slot && l.limit == s.lives[i].limit
        && (l.claims == s.lives[i].claims || (a.Take? && a.choice.Some? && s.table[a.choice.value].life == i))
  {
  }

  lemma StepKeepsClaims(c: Config, s: State, a: Action, k: Slot, i: nat)
    requires c.Valid() && LimitInv(c, s, k) && Enabled(s, a) && Assumed(c, s, a, k) && Inv(c, Apply(c, s, a))
    requires i < |Apply(c, s, a).lives| && Apply(c, s, a).lives[i].slot == k
    ensures |Apply(c, s, a).lives[i].claims| <= Apply(c, s, a).lives[i].limit
  {
    LivesAfter(c, s, a, i);
    if a.Take? && a.choice.Some? && s.table[a.choice.value].life == i {
      assert RowOk(c, s, a.choice.value) && RowOk(c, Apply(c, s, a), k);
      StepKeepsRowLimit(c, s, a, k);
    }
  }

  lemma StepKeepsLimitInv(c: Config, s: State, a: Action, k: Slot)
    requires c.Valid() && LimitInv(c, s, k) && Enabled(s, a) && Assumed(c, s, a, k)
    ensures LimitInv(c, Apply(c, s, a), k)
  {
    hide RowInLimit, Apply;
    var s' := Apply(c, s, a);
    StepKeepsInv(c, s, a);
    if k in s'.table { StepKeepsRowLimit(c, s, a, k); }
    forall i | 0 <= i < |s'.lives| && s'.lives[i].slot == k ensures |s'.lives[i].claims| <= s'.lives[i].limit {
      StepKeepsClaims(c, s, a, k, i);
    }
    forall i, j | 0 <= i < |s'.lives| && 0 <= j < |s'.lives| && s'.lives[i].slot == k && s'.lives[j].slot == k
      ensures s'.lives[i].limit == s'.lives[j].limit
    {
      LivesAfter(c, s, a, i);
      LivesAfter(c, s, a, j);
      if i < |s.lives| { assert s.lives[i] in s.lives; }
      if j < |s.lives| { assert s.lives[j] in s.lives; }
    }
  }

  /** The row of key k, if there is one, and every life of the key keep to their limits. */
  ghost predicate KeyBounded(c: Config, s: State, k: Slot)
    requires c.Valid()
  {
    && (k in s.table ==>
          var r := s.table[k];
          && (r.status == Queued ==> r.attempts < Limit(r, c))
          && (r.status == Running ==> 1 <= r.attempts <= Limit(r, c))
          && (r.status == Running <==> r.lockedUntil.Some?))
    && (forall i | 0 <= i < |s.lives| && s.lives[i].slot == k :: |s.lives[i].claims| <= s.lives[i].limit)
  }

  /**
    Over every interleaving, a queued row has an attempt left, a running row has used between
    one and all of its attempts, a lease is set exactly while a row runs, and no life is claimed
    more often than its limit allows. The premises are about the one key only.
  */
  lemma {:induction false} AttemptsStayWithinLimit(c: Config, ss: seq<State>, acts: seq<Action>, n: nat, k: Slot)
    requires c.Valid() && Behaviour(c, ss, acts) && Steady(c, ss, acts, k) && n < |ss|
    ensures LimitInv(c, ss[n], k) && KeyBounded(c, ss[n], k)
  {
    if n > 0 {
      AttemptsStayWithinLimit(c, ss, acts, n - 1, k);
      StepKeepsLimitInv(c, ss[n - 1], acts[n - 1], k);
    }
    if k in ss[n].table { assert RowOk(c, ss[n], k); }
  }
}
