/**
  The monthly budget of a search provider under concurrent workers and processes
  (reserve in internal/search/pool.go).

  A reservation takes the provider's lock, reads the clock for the start of the month, counts
  the calls since then, and reads the clock again for the row it inserts. Each is a step of its
  own, so the month can turn in between, and every process has a clock of its own.
*/
module SearchBudget {
  import opened Prelude

  /**
    The first moment of the month a moment lies in. The calendar is arbitrary: months are
    consecutive stretches of time.
  */
  datatype Calendar = Calendar(start: Time -> Time) {
    ghost predicate Valid() {
      && (forall t: Time :: start(t) <= t)
      && (forall t: Time, u: Time {:trigger start(t), start(u)} :: t <= u ==> start(t) <= start(u))
      && (forall t: Time {:trigger start(start(t))} :: start(start(t)) == start(t))
    }
  }

  /** A row of search_calls. */
  datatype Row = Row(provider: string, calledAt: Time)

  datatype Progress =
    | HasLock
    | Counted(since: Time, used: nat, budget: nat)

  datatype State = State(
    rows: seq<Row>,
    budgets: map<string, nat>,
    read: map<(string, Time), nat>,       // history: the budget that the last call of a provider in a month was made under
    locks: map<string, nat>,              // the worker that holds a provider's lock
    progress: map<nat, Progress>)

  datatype Action =
    | SetBudget(provider: string, budget: nat)
    | Lock(w: nat, provider: string)
    | CountCalls(w: nat, provider: string, now: Time)
    | Insert(w: nat, provider: string, now: Time)
    | Refuse(w: nat, provider: string)
    | Abort(w: nat, provider: string)

  function BudgetOf(m: map<string, nat>, provider: string): nat {
    if provider in m then m[provider] else 0
  }

  function Count(rows: seq<Row>, provider: string, since: Time): nat {
    if rows == [] then 0
    else
      var last := rows[|rows| - 1];
      Count(rows[..|rows| - 1], provider, since) + (if last.provider == provider && last.calledAt >= since then 1 else 0)
  }

  /** Calls of a provider that are dated in the month starting at `month`. */
  function InMonth(cal: Calendar, rows: seq<Row>, provider: string, month: Time): nat {
    if rows == [] then 0
    else
      var last := rows[|rows| - 1];
      InMonth(cal, rows[..|rows| - 1], provider, month)
      + (if last.provider == provider && cal.start(last.calledAt) == month then 1 else 0)
  }

  ghost predicate Init(s: State) {
    s.rows == [] && s.budgets == map[] && s.read == map[] && s.locks == map[] && s.progress == map[]
  }

  ghost predicate Enabled(s: State, a: Action) {
    match a
    case SetBudget(_, _) => true
    case Lock(w, p) => p !in s.locks && w !in s.progress
    case CountCalls(w, p, _) => p in s.locks && s.locks[p] == w && w in s.progress && s.progress[w].HasLock?
    case Insert(w, p, _) =>
      && p in s.locks && s.locks[p] == w && w in s.progress && s.progress[w].Counted?
      && s.progress[w].used < s.progress[w].budget
    case Refuse(w, p) =>
      && p in s.locks && s.locks[p] == w && w in s.progress && s.progress[w].Counted?
      && s.progress[w].used >= s.progress[w].budget
    case Abort(w, p) => p in s.locks && s.locks[p] == w && w in s.progress
  }

  function Released(s: State, w: nat, p: string): State {
    s.(locks := s.locks - {p}, progress := s.progress - {w})
  }

  ghost function Apply(cal: Calendar, s: State, a: Action): State
    requires Enabled(s, a)
  {
    match a
    case SetBudget(p, b) => s.(budgets := s.budgets[p := b])
    case Lock(w, p) => s.(locks := s.locks[p := w], progress := s.progress[w := HasLock])
    case CountCalls(w, p, now) =>
      s.(progress := s.progress[w := Counted(cal.start(now), Count(s.rows, p, cal.start(now)), BudgetOf(s.budgets, p))])
    case Insert(w, p, now) =>
      Released(s, w, p).(rows := s.rows + [Row(p, now)], read := s.read[(p, cal.start(now)) := s.progress[w].budget])
    case Refuse(w, p) => Released(s, w, p)
    case Abort(w, p) => Released(s, w, p)
  }

  ghost predicate Behaviour(cal: Calendar, ss: seq<State>, acts: seq<Action>) {
    && |ss| == |acts| + 1 && Init(ss[0])
    && forall i {:trigger acts[i]} | 0 <= i < |acts| :: Enabled(ss[i], acts[i]) && ss[i + 1] == Apply(cal, ss[i], acts[i])
  }

  /** Within one reservation the clock does not fall back into an earlier month. */
  ghost predicate Forward(cal: Calendar, s: State, a: Action)
    requires Enabled(s, a)
  {
    a.Insert? ==> s.progress[a.w].since <= cal.start(a.now)
  }

  ghost predicate AllForward(cal: Calendar, ss: seq<State>, acts: seq<Action>)
    requires Behaviour(cal, ss, acts)
  {
    forall i {:trigger acts[i]} | 0 <= i < |acts| :: Forward(cal, ss[i], acts[i])
  }

  // ----- What every step keeps

  ghost predicate LockOk(s: State, p: string)
    requires p in s.locks
  {
    var w := s.locks[p];
    w in s.progress && (s.progress[w].Counted? ==> s.progress[w].used == Count(s.rows, p, s.progress[w].since))
  }

  /** What the last call of the provider in the month was made under. */
  function Budgeted(s: State, p: string, month: Time): nat {
    if (p, month) in s.read then s.read[(p, month)] else 0
  }

  ghost predicate WithinBudget(cal: Calendar, s: State) {
    forall p, month {:trigger InMonth(cal, s.rows, p, month)} :: InMonth(cal, s.rows, p, month) <= Budgeted(s, p, month)
  }

  ghost predicate Inv(cal: Calendar, s: State) {
    && (forall p | p in s.locks :: LockOk(s, p))
    && (forall p, q | p in s.locks && q in s.locks && s.locks[p] == s.locks[q] :: p == q)
    && WithinBudget(cal, s)
  }

  /** Counting from the start of an earlier or the same month sees every call of the month. */
  lemma {:induction false} CountSeesMonth(cal: Calendar, rows: seq<Row>, p: string, since: Time, month: Time)
    requires cal.Valid() && since <= month
    ensures InMonth(cal, rows, p, month) <= Count(rows, p, since)
  {
    if rows != [] {
      CountSeesMonth(cal, rows[..|rows| - 1], p, since, month);
      assert cal.start(rows[|rows| - 1].calledAt) <= rows[|rows| - 1].calledAt;
    }
  }

  lemma OneMore(cal: Calendar, rows: seq<Row>, r: Row, p: string, month: Time)
    ensures InMonth(cal, rows + [r], p, month)
      == InMonth(cal, rows, p, month) + (if r.provider == p && cal.start(r.calledAt) == month then 1 else 0)
    ensures forall since ::
      Count(rows + [r], p, since) == Count(rows, p, since) + (if r.provider == p && r.calledAt >= since then 1 else 0)
  {
  }

  lemma InsertKeepsBudget(cal: Calendar, s: State, a: Action)
    requires cal.Valid() && Inv(cal, s) && a.Insert? && Enabled(s, a) && Forward(cal, s, a)
    ensures WithinBudget(cal, Apply(cal, s, a))
  {
    var s' := Apply(cal, s, a);
    assert LockOk(s, a.provider);
    forall p, month ensures InMonth(cal, s'.rows, p, month) <= Budgeted(s', p, month) {
      OneMore(cal, s.rows, Row(a.provider, a.now), p, month);
      if p == a.provider && cal.start(a.now) == month {
        CountSeesMonth(cal, s.rows, p, s.progress[a.w].since, month);
      }
    }
  }

  lemma StepKeepsLocks(cal: Calendar, s: State, a: Action, p: string)
    requires (forall q | q in s.locks :: LockOk(s, q)) && Enabled(s, a) && p in Apply(cal, s, a).locks
    requires forall q, r | q in s.locks && r in s.locks && s.locks[q] == s.locks[r] :: q == r
    ensures LockOk(Apply(cal, s, a), p)
  {
    if p in s.locks { assert LockOk(s, p); }
    if a.Insert? { OneMore(cal, s.rows, Row(a.provider, a.now), p, 0); }
  }

  lemma StepKeepsInv(cal: Calendar, s: State, a: Action)
    requires cal.Valid() && Inv(cal, s) && Enabled(s, a) && Forward(cal, s, a)
    ensures Inv(cal, Apply(cal, s, a))
  {
    var s' := Apply(cal, s, a);
    forall p | p in s'.locks ensures LockOk(s', p) { StepKeepsLocks(cal, s, a, p); }
    if a.Insert? { InsertKeepsBudget(cal, s, a); }
  }

  /**
    For any number of workers and processes, a provider's calls dated in one month never exceed
    the budget that the last of them was made under, even when the month turns between the count
    and the insert and when the clocks of different processes disagree. A budget that was cut
    before the month does not count for it.
  */
  lemma {:induction false} MonthStaysWithinBudget(cal: Calendar, ss: seq<State>, acts: seq<Action>, n: nat)
    requires cal.Valid() && Behaviour(cal, ss, acts) && AllForward(cal, ss, acts) && n < |ss|
    ensures Inv(cal, ss[n])
    ensures forall p, month :: InMonth(cal, ss[n].rows, p, month) <= Budgeted(ss[n], p, month)
  {
    if n > 0 {
      MonthStaysWithinBudget(cal, ss, acts, n - 1);
      StepKeepsInv(cal, ss[n - 1], acts[n - 1]);
    }
  }

  /** A reservation that counted is refused exactly when the budget it read was spent, and made otherwise. */
  lemma RefusedExactlyWhenSpent(cal: Calendar, s: State, p: string, now: Time)
    requires Inv(cal, s) && p in s.locks && s.progress[s.locks[p]].Counted?
    ensures Enabled(s, Refuse(s.locks[p], p)) <==>
      Count(s.rows, p, s.progress[s.locks[p]].since) >= s.progress[s.locks[p]].budget
    ensures Enabled(s, Insert(s.locks[p], p, now)) <==> !Enabled(s, Refuse(s.locks[p], p))
    ensures Enabled(s, Refuse(s.locks[p], p)) ==>
      Apply(cal, s, Refuse(s.locks[p], p)) == s.(locks := s.locks - {p}, progress := s.progress - {s.locks[p]})
  {
    assert LockOk(s, p);
  }

  /** Whatever becomes of a reservation, it gives its provider's lock back, and only that. */
  lemma LockIsGivenBack(cal: Calendar, s: State, a: Action, w: nat, p: string)
    requires Enabled(s, a) && (a == Refuse(w, p) || a == Abort(w, p) || (a.Insert? && a.w == w && a.provider == p))
    ensures var s' := Apply(cal, s, a);
      && s'.locks == s.locks - {p} && s'.progress == s.progress - {w} && s'.budgets == s.budgets
      && s'.rows == (if a.Insert? then s.rows + [Row(p, a.now)] else s.rows)
  {
  }

  // ----- A budget that stays

  ghost predicate AtMost(s: State, p: string, budget: nat) {
    && BudgetOf(s.budgets, p) <= budget
    && (p in s.locks && s.locks[p] in s.progress && s.progress[s.locks[p]].Counted? ==>
          s.progress[s.locks[p]].budget <= budget)
    && forall month :: Budgeted(s, p, month) <= budget
  }

  lemma StepKeepsAtMost(cal: Calendar, s: State, a: Action, p: string, budget: nat)
    requires Inv(cal, s) && Enabled(s, a) && AtMost(s, p, budget)
    requires a.SetBudget? && a.provider == p ==> a.budget == budget
    ensures AtMost(Apply(cal, s, a), p, budget)
  {
    var s' := Apply(cal, s, a);
    forall month ensures Budgeted(s', p, month) <= budget { assert Budgeted(s, p, month) <= budget; }
  }

  lemma {:induction false} BudgetStays(cal: Calendar, ss: seq<State>, acts: seq<Action>, n: nat, p: string, budget: nat)
    requires cal.Valid() && Behaviour(cal, ss, acts) && AllForward(cal, ss, acts) && n < |ss|
    requires forall i | 0 <= i < |acts| && acts[i].SetBudget? && acts[i].provider == p :: acts[i].budget == budget
    ensures AtMost(ss[n], p, budget)
  {
    if n > 0 {
      BudgetStays(cal, ss, acts, n - 1, p, budget);
      MonthStaysWithinBudget(cal, ss, acts, n - 1);
      StepKeepsAtMost(cal, ss[n - 1], acts[n - 1], p, budget);
    }
  }

  /** With a budget that never changed, the bound is the budget itself. */
  lemma MonthStaysWithinFixedBudget(cal: Calendar, ss: seq<State>, acts: seq<Action>, n: nat, p: string, budget: nat, month: Time)
    requires cal.Valid() && Behaviour(cal, ss, acts) && AllForward(cal, ss, acts) && n < |ss|
    requires forall i | 0 <= i < |acts| && acts[i].SetBudget? && acts[i].provider == p :: acts[i].budget == budget
    ensures InMonth(cal, ss[n].rows, p, month) <= budget
  {
    MonthStaysWithinBudget(cal, ss, acts, n);
    BudgetStays(cal, ss, acts, n, p, budget);
    assert Budgeted(ss[n], p, month) <= budget;
  }

  // ----- Exactly which clocks keep the budget

  /**
    What the clocks may do within one reservation: the start of the month that was counted, and
    the time of the insert. A clock that stands still is always possible.
  */
  type Clocks = (Time, Time) -> bool

  ghost predicate Possible(cal: Calendar, ok: Clocks) {
    forall t: Time {:trigger cal.start(t)} :: ok(cal.start(t), t)
  }

  ghost predicate Follows(cal: Calendar, ok: Clocks, ss: seq<State>, acts: seq<Action>) {
    && Behaviour(cal, ss, acts)
    && forall i {:trigger acts[i]} | 0 <= i < |acts| && acts[i].Insert? :: ok(ss[i].progress[acts[i].w].since, acts[i].now)
  }

  /** Every behaviour with such clocks stays within the budget. */
  ghost predicate Always(cal: Calendar, ok: Clocks) {
    forall ss, acts | Follows(cal, ok, ss, acts) :: WithinBudget(cal, ss[|acts|])
  }

  /** The clocks never fall back into an earlier month between the count and the insert. */
  ghost predicate NeverBack(cal: Calendar, ok: Clocks) {
    forall counted: Time, inserted: Time {:trigger cal.start(counted), cal.start(inserted)} ::
      ok(cal.start(counted), inserted) ==> cal.start(counted) <= cal.start(inserted)
  }

  ghost predicate Reachable(cal: Calendar, ok: Clocks, s: State) {
    exists ss, acts :: Follows(cal, ok, ss, acts) && ss[|acts|] == s
  }

  ghost const START := State([], map[], map[], map[], map[])

  lemma Step(cal: Calendar, ok: Clocks, s: State, a: Action) returns (s': State)
    requires Reachable(cal, ok, s) && Enabled(s, a)
    requires a.Insert? ==> ok(s.progress[a.w].since, a.now)
    ensures s' == Apply(cal, s, a) && Reachable(cal, ok, s')
  {
    hide Apply;
    s' := Apply(cal, s, a);
    var ss, acts :| Follows(cal, ok, ss, acts) && ss[|acts|] == s;
    var ss', acts' := ss + [s'], acts + [a];
    assert Follows(cal, ok, ss', acts') && ss'[|acts'|] == s';
  }

  /** One whole reservation by worker 0 that counts at one clock reading and inserts at another. */
  lemma Reserves(cal: Calendar, ok: Clocks, s: State, counted: Time, inserted: Time) returns (s': State)
    requires Reachable(cal, ok, s) && s.locks == map[] && s.progress == map[] && ok(cal.start(counted), inserted)
    requires Count(s.rows, "exa", cal.start(counted)) < BudgetOf(s.budgets, "exa")
    ensures Reachable(cal, ok, s')
    ensures s' == s.(rows := s.rows + [Row("exa", inserted)],
                     read := s.read[("exa", cal.start(inserted)) := BudgetOf(s.budgets, "exa")])
  {
    s' := Step(cal, ok, s, Lock(0, "exa"));
    s' := Step(cal, ok, s', CountCalls(0, "exa", counted));
    s' := Step(cal, ok, s', Insert(0, "exa", inserted));
  }

  lemma WithBudget(cal: Calendar, ok: Clocks, budget: nat) returns (s: State)
    ensures Reachable(cal, ok, s) && s == START.(budgets := map["exa" := budget])
  {
    assert Follows(cal, ok, [START], []) && [START][0] == START;
    s := Step(cal, ok, START, SetBudget("exa", budget));
  }

  /** The month of the earlier reading is filled, every call counted and inserted at that one time. */
  lemma {:induction false} FillsMonth(cal: Calendar, ok: Clocks, budget: nat, t: Time, n: nat) returns (s: State)
    requires cal.Valid() && Possible(cal, ok) && n <= budget
    ensures Reachable(cal, ok, s) && s.budgets == map["exa" := budget] && s.locks == map[] && s.progress == map[]
    ensures InMonth(cal, s.rows, "exa", cal.start(t)) == n == Count(s.rows, "exa", cal.start(t))
    ensures forall since | since > t :: Count(s.rows, "exa", since) == 0
  {
    if n == 0 {
      s := WithBudget(cal, ok, budget);
    } else {
      var before := FillsMonth(cal, ok, budget, t, n - 1);
      s := Reserves(cal, ok, before, t, t);
      OneMore(cal, before.rows, Row("exa", t), "exa", cal.start(t));
    }
  }

  /**
    Whatever the calendar and the budget, once the clock can fall back from one month into an
    earlier one: when that earlier month is full, a reservation that counts in the later month,
    which is empty, and inserts in the earlier one makes one call too many.
  */
  lemma BackwardClockBreaksBudget(cal: Calendar, ok: Clocks, budget: nat, counted: Time, inserted: Time) returns (s: State)
    requires cal.Valid() && Possible(cal, ok) && budget > 0
    requires ok(cal.start(counted), inserted) && cal.start(inserted) < cal.start(counted)
    ensures Reachable(cal, ok, s) && InMonth(cal, s.rows, "exa", cal.start(inserted)) == budget + 1
    ensures Budgeted(s, "exa", cal.start(inserted)) == budget
  {
    assert cal.start(cal.start(counted)) == cal.start(counted);
    assert inserted < cal.start(counted);
    var full := FillsMonth(cal, ok, budget, inserted, budget);
    s := Reserves(cal, ok, full, counted, inserted);
    OneMore(cal, full.rows, Row("exa", inserted), "exa", cal.start(inserted));
  }

  lemma {:induction false} CountedFromMonthStart(cal: Calendar, ss: seq<State>, acts: seq<Action>, n: nat, w: nat)
    requires Behaviour(cal, ss, acts) && n < |ss| && w in ss[n].progress && ss[n].progress[w].Counted?
    ensures exists t: Time :: ss[n].progress[w].since == cal.start(t)
  {
    var s, a := ss[n - 1], acts[n - 1];
    if a.CountCalls? && a.w == w {
      assert ss[n].progress[w].since == cal.start(a.now);
    } else {
      assert w in s.progress && s.progress[w] == ss[n].progress[w];
      CountedFromMonthStart(cal, ss, acts, n - 1, w);
    }
  }

  lemma NeverBackIsForward(cal: Calendar, ok: Clocks, ss: seq<State>, acts: seq<Action>)
    requires NeverBack(cal, ok) && Follows(cal, ok, ss, acts)
    ensures AllForward(cal, ss, acts)
  {
    forall i {:trigger acts[i]} | 0 <= i < |acts| ensures Forward(cal, ss[i], acts[i]) {
      if acts[i].Insert? {
        CountedFromMonthStart(cal, ss, acts, i, acts[i].w);
        var t: Time :| ss[i].progress[acts[i].w].since == cal.start(t);
      }
    }
  }

  /**
    For every calendar and whatever the clocks may do: calls stay within the budget on every
    behaviour if and only if no clock falls back into an earlier month within a reservation.
  */
  lemma BudgetHoldsExactlyWhen(cal: Calendar, ok: Clocks)
    requires cal.Valid() && Possible(cal, ok)
    ensures Always(cal, ok) <==> NeverBack(cal, ok)
  {
    if NeverBack(cal, ok) {
      forall ss, acts | Follows(cal, ok, ss, acts) ensures WithinBudget(cal, ss[|acts|]) {
        NeverBackIsForward(cal, ok, ss, acts);
        MonthStaysWithinBudget(cal, ss, acts, |acts|);
      }
    } else {
      var counted: Time, inserted: Time :| ok(cal.start(counted), inserted) && cal.start(counted) > cal.start(inserted);
      var s := BackwardClockBreaksBudget(cal, ok, 1, counted, inserted);
      var ss, acts :| Follows(cal, ok, ss, acts) && ss[|acts|] == s;
      assert !WithinBudget(cal, ss[|acts|]);
    }
  }
}
