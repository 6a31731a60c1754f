/**
  The jobs table of internal/queue/queue.go and the SQL statements that work on it.

  A table maps the unique pair of kind and key to its row. Every statement is one
  function on tables, and `Queue` is the object whose methods run the statements.
  The column `life` exists for the proofs only: it numbers the Enqueue that put the row
  in the queue from scratch, so that two lives of one row can be told apart.
*/
module JobTable {
  import opened Prelude

  datatype Status = Queued | Running | Done | Failed

  datatype Slot = Slot(kind: string, key: string)

  datatype Row = Row(
    id: nat,
    life: nat,
    payload: string,
    status: Status,
    attempts: nat,
    maxAttempts: Option<nat>,
    runAfter: Time,
    lockedUntil: Option<Time>,
    lastError: string,
    updatedAt: Time)

  type Table = map<Slot, Row>

  /** A claimed job as its worker holds it. */
  datatype Handle = Handle(slot: Slot, id: nat, life: nat, attempt: nat, limit: nat)

  datatype Config = Config(maxAttempts: int, backoff: seq<int>, lease: int) {
    predicate Valid() {
      maxAttempts > 0 && |backoff| > 0 && lease > 0
    }
  }

  const DEFAULT_BACKOFF := [60, 600, 3600]

  /** New: zero and negative options take the defaults. */
  function NewConfig(opts: Config): (c: Config)
    ensures c.Valid() && (opts.Valid() ==> c == opts)
    ensures opts.maxAttempts > 0 ==> c.maxAttempts == opts.maxAttempts
    ensures opts.backoff != [] ==> c.backoff == opts.backoff
    ensures opts.lease > 0 ==> c.lease == opts.lease
    ensures !(opts.maxAttempts > 0) ==> c.maxAttempts == 5
    ensures opts.backoff == [] ==> c.backoff == [60, 600, 3600]
    ensures !(opts.lease > 0) ==> c.lease == 600
  {
    Config(
      if opts.maxAttempts <= 0 then 5 else opts.maxAttempts,
      if |opts.backoff| == 0 then DEFAULT_BACKOFF else opts.backoff,
      if opts.lease <= 0 then 600 else opts.lease)
  }

  /** The wait after the given failed attempt, counted from 1. */
  function Backoff(c: Config, attempt: int): (wait: int)
    requires c.Valid()
    ensures 1 <= attempt <= |c.backoff| ==> wait == c.backoff[attempt - 1]
    ensures attempt > |c.backoff| ==> wait == c.backoff[|c.backoff| - 1]
    ensures attempt < 1 ==> wait == c.backoff[0]
  {
    var i := if attempt - 1 <= |c.backoff| - 1 then attempt - 1 else |c.backoff| - 1;
    c.backoff[if i >= 0 then i else 0]
  }

  predicate Finished(r: Row) {
    r.status == Done || r.status == Failed
  }

  predicate Outstanding(r: Row) {
    r.status == Queued || r.status == Running
  }

  /** COALESCE(max_attempts, default) */
  function Limit(r: Row, c: Config): nat
    requires c.Valid()
  {
    if r.maxAttempts.Some? then r.maxAttempts.value else c.maxAttempts
  }

  function RequestedLimit(max: nat, c: Config): nat
    requires c.Valid()
  {
    if max == 0 then c.maxAttempts else max
  }

  // ----- Enqueue

  predicate Free(t: Table, slot: Slot) {
    slot in t ==> Finished(t[slot])
  }

  function Enqueued(t: Table, slot: Slot, payload: string, runAfter: Option<Time>, max: nat,
                    now: Time, freshId: nat, life: nat): Table
  {
    if Free(t, slot) then
      t[slot := Row(if slot in t then t[slot].id else freshId, life, payload, Queued, 0,
                    if max == 0 then None else Some(max),
                    if runAfter.Some? then runAfter.value else now, None, "", now)]
    else t
  }

  // ----- Claim, statement one: a lease that ran out on the last attempt ends the job

  predicate LeaseOver(r: Row, now: Time) {
    r.status == Running && r.lockedUntil.Some? && r.lockedUntil.value < now
  }

  predicate Spent(r: Row, now: Time, c: Config)
    requires c.Valid()
  {
    LeaseOver(r, now) && r.attempts >= Limit(r, c)
  }

  function FailedRow(r: Row, msg: string, now: Time): Row {
    r.(status := Failed, lockedUntil := None, lastError := msg, updatedAt := now)
  }

  function Swept(t: Table, now: Time, c: Config): Table
    requires c.Valid()
  {
    map s | s in t ::
      if Spent(t[s], now, c)
      then FailedRow(t[s], if t[s].lastError == "" then "lease expired" else t[s].lastError, now)
      else t[s]
  }

  // ----- Claim, statement two: the first job that is due

  predicate Due(r: Row, now: Time) {
    (r.status == Queued && r.runAfter <= now) || LeaseOver(r, now)
  }

  /** ORDER BY run_after, id */
  predicate Before(a: Row, b: Row) {
    a.runAfter < b.runAfter || (a.runAfter == b.runAfter && a.id < b.id)
  }

  predicate NothingDue(t: Table, now: Time) {
    forall s | s in t :: !Due(t[s], now)
  }

  predicate IsNext(t: Table, now: Time, slot: Slot) {
    && slot in t && Due(t[slot], now)
    && forall s | s in t && s != slot && Due(t[s], now) :: Before(t[slot], t[s])
  }

  function TakenRow(r: Row, now: Time, c: Config): Row {
    r.(status := Running, attempts := r.attempts + 1, lockedUntil := Some(now + c.lease), updatedAt := now)
  }

  function Taken(t: Table, slot: Slot, now: Time, c: Config): Table
    requires slot in t
  {
    t[slot := TakenRow(t[slot], now, c)]
  }

  function HandleOf(slot: Slot, r: Row, c: Config): Handle
    requires c.Valid()
  {
    Handle(slot, r.id, r.life, r.attempts, Limit(r, c))
  }

  // ----- Complete and Fail, fenced by id, status and attempt number

  predicate Holds(t: Table, h: Handle) {
    && h.slot in t && t[h.slot].id == h.id
    && t[h.slot].status == Running && t[h.slot].attempts == h.attempt
  }

  function Completed(t: Table, h: Handle, now: Time): Table {
    if Holds(t, h) then
      t[h.slot := t[h.slot].(status := Done, lockedUntil := None, lastError := "", updatedAt := now)]
    else t
  }

  function FailedAttempt(t: Table, h: Handle, msg: string, now: Time, c: Config): Table
    requires c.Valid()
  {
    if !Holds(t, h) then t
    else if h.attempt >= (if h.limit <= 0 then c.maxAttempts else h.limit) then
      t[h.slot := FailedRow(t[h.slot], msg, now)]
    else
      t[h.slot := t[h.slot].(status := Queued, lockedUntil := None, lastError := msg,
                             runAfter := now + Backoff(c, h.attempt), updatedAt := now)]
  }

  // ----- Updates of the jobs table by other packages

  /** dropQueued, and the replacing of older jobs by EnqueueDue: queued rows end as failed. */
  function Dropped(t: Table, slots: set<Slot>, why: string, now: Time): Table {
    map s | s in t :: if s in slots && t[s].status == Queued then FailedRow(t[s], why, now) else t[s]
  }

  /** EndInterrupted: queued and running rows end as failed. */
  function Interrupted(t: Table, slots: set<Slot>, why: string, now: Time): Table {
    map s | s in t :: if s in slots && Outstanding(t[s]) then FailedRow(t[s], why, now) else t[s]
  }

  /** handlePrune deletes rows that are done. */
  function Pruned(t: Table, slots: set<Slot>): Table {
    map s | s in t && !(s in slots && t[s].status == Done) :: t[s]
  }

  /** The WHERE clause of the second statement, column by column. */
  predicate Claimable(r: Row, now: Time) {
    (r.status == Queued && r.runAfter <= now) || (r.status == Running && r.lockedUntil.Some? && r.lockedUntil.value < now)
  }

  // ----- The queue object

  ghost predicate UniqueIds(t: Table) {
    forall s, u | s in t && u in t && t[s].id == t[u].id :: s == u
  }

  /** Statement two finds a row exactly when one is due, because a finite set has a least element. */
  lemma NextExists(t: Table, now: Time)
    requires UniqueIds(t)
    ensures NothingDue(t, now) || exists s :: IsNext(t, now, s)
  {
    var due := set s | s in t && Due(t[s], now);
    if due == {} {
      assert forall s | s in t && Due(t[s], now) :: s in due;
    } else {
      var s := Least(t, due);
      assert IsNext(t, now, s);
    }
  }

  lemma {:induction false} Least(t: Table, due: set<Slot>) returns (m: Slot)
    requires UniqueIds(t) && due <= t.Keys && due != {}
    ensures m in due && forall s | s in due && s != m :: Before(t[m], t[s])
    decreases |due|
  {
    var x :| x in due;
    if due == {x} {
      m := x;
    } else {
      assert due - {x} != {};
      var y := Least(t, due - {x});
      m := if Before(t[x], t[y]) then x else y;
    }
  }

  datatype EnqueueResult = Added | LeftAlone | Rejected

  class Queue {
    const cfg: Config
    var table: Table
    var nextId: nat
    var nextLife: nat

    ghost predicate Valid()
      reads this
    {
      && cfg.Valid()
      && UniqueIds(table)
      && forall s | s in table :: table[s].id < nextId && table[s].life < nextLife
    }

    constructor (opts: Config)
      ensures Valid() && cfg == NewConfig(opts) && table == map[]
    {
      cfg := NewConfig(opts);
      table := map[];
      nextId, nextLife := 1, 0;
    }

    /** A waiting or running job is left alone, a finished one starts again from scratch. */
    method Enqueue(kind: string, key: string, payload: string, runAfter: Option<Time>, max: int, now: Time)
      returns (r: EnqueueResult)
      requires Valid()
      modifies this
      ensures Valid()
      ensures r.Rejected? <==> kind == "" || key == "" || max < 0
      ensures r.LeftAlone? <==> !r.Rejected? && Slot(kind, key) in old(table) && Outstanding(old(table)[Slot(kind, key)])
      ensures !r.Added? ==> table == old(table)
      ensures r.Added? ==>
        && Slot(kind, key) in table
        && table == old(table)[Slot(kind, key) := table[Slot(kind, key)]]
        && var row := table[Slot(kind, key)];
           && row.status == Queued && row.attempts == 0 && row.lockedUntil.None? && row.lastError == ""
           && row.payload == payload && row.life == old(nextLife)
           && row.maxAttempts == (if max == 0 then None else Some(max))
           && row.runAfter == (if runAfter.Some? then runAfter.value else now) && row.updatedAt == now
           && forall s | s in old(table) :: (row.id == old(table)[s].id <==> s == Slot(kind, key))
    {
      var slot := Slot(kind, key);
      if kind == "" || key == "" || max < 0 {
        return Rejected;
      }
      if !Free(table, slot) {
        return LeftAlone;
      }
      table := Enqueued(table, slot, payload, runAfter, max, now, nextId, nextLife);
      nextId, nextLife := nextId + 1, nextLife + 1;
      return Added;
    }

    /** Both statements of Claim, with nothing between them. */
    method Claim(now: Time) returns (j: Option<Handle>)
      requires Valid()
      modifies this`table
      ensures Valid()
      ensures j.None? <==> NothingDue(Swept(old(table), now, cfg), now)
      ensures j.None? ==> table == Swept(old(table), now, cfg)
      ensures j.Some? ==>
        && IsNext(Swept(old(table), now, cfg), now, j.value.slot)
        && table == Taken(Swept(old(table), now, cfg), j.value.slot, now, cfg)
        && Holds(table, j.value)
        && j.value.attempt == old(table)[j.value.slot].attempts + 1
        && table[j.value.slot].lockedUntil == Some(now + cfg.lease)
    {
      ExpireLeases(now);
      j := TakeNext(now);
    }

    /** Statement one alone: a running job whose lease ran out on its last attempt fails, and no other row changes. */
    method ExpireLeases(now: Time)
      requires Valid()
      modifies this`table
      ensures Valid()
      ensures table == Swept(old(table), now, cfg) && table.Keys == old(table).Keys
      ensures forall s | s in old(table) ::
        var r := old(table)[s];
        table[s] ==
          if r.status == Running && r.lockedUntil.Some? && r.lockedUntil.value < now
             && r.attempts >= (if r.maxAttempts.Some? then r.maxAttempts.value else cfg.maxAttempts)
          then r.(status := Failed, lockedUntil := None, updatedAt := now,
                  lastError := if r.lastError == "" then "lease expired" else r.lastError)
          else r
    {
      table := Swept(table, now, cfg);
    }

    /** Statement two alone. */
    method TakeNext(now: Time) returns (j: Option<Handle>)
      requires Valid()
      modifies this`table
      ensures Valid()
      ensures j.None? <==> NothingDue(old(table), now)
      ensures j.None? <==> forall s | s in old(table) :: !Claimable(old(table)[s], now)
      ensures j.None? ==> table == old(table)
      ensures j.Some? ==>
        && j.value.slot in old(table) && Claimable(old(table)[j.value.slot], now)
        && (forall s | s in old(table) && s != j.value.slot && Claimable(old(table)[s], now) ::
              || old(table)[j.value.slot].runAfter < old(table)[s].runAfter
              || (old(table)[j.value.slot].runAfter == old(table)[s].runAfter && old(table)[j.value.slot].id < old(table)[s].id))
        && var r := old(table)[j.value.slot];
           && table == old(table)[j.value.slot := r.(status := Running, attempts := r.attempts + 1,
                                                     lockedUntil := Some(now + cfg.lease), updatedAt := now)]
           && j.value == Handle(j.value.slot, r.id, r.life, r.attempts + 1,
                                if r.maxAttempts.Some? then r.maxAttempts.value else cfg.maxAttempts)
      ensures j.Some? ==>
        && IsNext(old(table), now, j.value.slot)
        && table == Taken(old(table), j.value.slot, now, cfg)
        && Holds(table, j.value)
        && j.value.attempt == old(table)[j.value.slot].attempts + 1
        && table[j.value.slot].lockedUntil == Some(now + cfg.lease)
    {
      NextExists(table, now);
      if slot :| slot in table && IsNext(table, now, slot) {
        table := Taken(table, slot, now, cfg);
        j := Some(HandleOf(slot, table[slot], cfg));
      } else {
        j := None;
      }
    }

    /** ErrLostLease is `!ok`. */
    method Complete(h: Handle, now: Time) returns (ok: bool)
      requires Valid()
      modifies this`table
      ensures Valid()
      ensures ok == Holds(old(table), h)
      ensures table == Completed(old(table), h, now)
      ensures !ok ==> table == old(table)
      ensures ok <==>
        && h.slot in old(table) && old(table)[h.slot].id == h.id
        && old(table)[h.slot].status == Running && old(table)[h.slot].attempts == h.attempt
      ensures ok ==>
        table == old(table)[h.slot := old(table)[h.slot].(status := Done, lockedUntil := None, lastError := "", updatedAt := now)]
    {
      ok := Holds(table, h);
      table := Completed(table, h, now);
    }

    method Fail(h: Handle, msg: string, now: Time) returns (ok: bool)
      requires Valid()
      modifies this`table
      ensures Valid()
      ensures ok == Holds(old(table), h)
      ensures table == FailedAttempt(old(table), h, msg, now, cfg)
      ensures !ok ==> table == old(table)
      ensures ok ==>
        var r := old(table)[h.slot];
        table == old(table)[h.slot :=
          if h.attempt >= (if h.limit == 0 then cfg.maxAttempts else h.limit)
          then r.(status := Failed, lockedUntil := None, lastError := msg, updatedAt := now)
          else r.(status := Queued, lockedUntil := None, lastError := msg, updatedAt := now,
                  runAfter := now + Backoff(cfg, h.attempt))]
    {
      ok := Holds(table, h);
      table := FailedAttempt(table, h, msg, now, cfg);
    }
  }
}
