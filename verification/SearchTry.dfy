/**
  One search over several providers (try in internal/search/pool.go).

  Providers are named by their position in the list. What the database and the providers
  answer is arbitrary: `Turn` says, for each place in the order, what happens when its turn
  comes.
*/
module SearchTry {
  datatype Use = Use(used: nat, budget: nat)

  /** The share of the budget that is left. A provider without a budget counts as zero. */
  function Share(usage: map<string, Use>, name: string): real {
    if name in usage && usage[name].budget > 0
    then (usage[name].budget as real - usage[name].used as real) / usage[name].budget as real
    else 0.0
  }

  /** A provider has a budget to take a share of. */
  predicate HasBudget(usage: map<string, Use>, name: string) {
    name in usage && usage[name].budget > 0
  }

  /**
    x has more of its budget left than y, on the numbers and without a division. A provider without
    a budget comes after all that have something left and before all that are past their budget.
  */
  predicate MoreLeft(usage: map<string, Use>, x: string, y: string) {
    if HasBudget(usage, x) && HasBudget(usage, y) then
      (usage[x].budget - usage[x].used) * usage[y].budget > (usage[y].budget - usage[y].used) * usage[x].budget
    else if HasBudget(usage, x) then usage[x].used < usage[x].budget
    else HasBudget(usage, y) && usage[y].used > usage[y].budget
  }

  lemma FractionsCompare(a: int, b: nat, c: int, d: nat)
    requires b > 0 && d > 0
    ensures a as real / b as real > c as real / d as real <==> a * d > c * b
  {
    var x, y := a as real / b as real, c as real / d as real;
    assert x * b as real == a as real && y * d as real == c as real;
    assert (x - y) * (b as real * d as real) == (a * d - c * b) as real by {
      assert x * b as real * d as real == (a * d) as real;
      assert y * d as real * b as real == (c * b) as real;
    }
    SignOfProduct(x - y, b as real * d as real);
  }

  lemma SignOfProduct(z: real, w: real)
    requires w > 0.0
    ensures z > 0.0 <==> z * w > 0.0
  {
  }

  lemma FractionSign(a: int, b: nat)
    requires b > 0
    ensures (a as real / b as real > 0.0 <==> a > 0) && (a as real / b as real < 0.0 <==> a < 0)
  {
    FractionsCompare(a, b, 0, 1);
    FractionsCompare(0, 1, a, b);
  }

  /** So the shares compare as the numbers do. */
  lemma MoreLeftIsLargerShare(usage: map<string, Use>, x: string, y: string)
    ensures MoreLeft(usage, x, y) <==> Share(usage, x) > Share(usage, y)
  {
    if HasBudget(usage, x) && HasBudget(usage, y) {
      FractionsCompare(usage[x].budget - usage[x].used, usage[x].budget, usage[y].budget - usage[y].used, usage[y].budget);
    } else if HasBudget(usage, x) {
      FractionSign(usage[x].budget - usage[x].used, usage[x].budget);
    } else if HasBudget(usage, y) {
      FractionSign(usage[y].budget - usage[y].used, usage[y].budget);
    }
  }

  // ----- The order

  /** Provider i goes before provider j: more of its budget left, or the same and listed first. */
  predicate Precedes(names: seq<string>, usage: map<string, Use>, i: nat, j: nat)
    requires i < |names| && j < |names|
  {
    var a, b := Share(usage, names[i]), Share(usage, names[j]);
    a > b || (a == b && i < j)
  }

  predicate InRange(order: seq<nat>, n: nat) {
    forall a | 0 <= a < |order| :: order[a] < n
  }

  predicate Ordered(names: seq<string>, usage: map<string, Use>, order: seq<nat>)
    requires InRange(order, |names|)
  {
    forall a, b | 0 <= a < b < |order| :: Precedes(names, usage, order[a], order[b])
  }

  /** A stable sort of the first n providers, by inserting each after those it does not precede. */
  function Order(names: seq<string>, usage: map<string, Use>, n: nat): (order: seq<nat>)
    requires n <= |names|
    ensures |order| == n && InRange(order, n) && forall i: nat | i < n :: i in order
  {
    if n == 0 then [] else
    var rest := Order(names, usage, n - 1);
    var k := Place(names, usage, rest, n - 1);
    Inserted(rest, k, n - 1);
    rest[..k] + [n - 1] + rest[k..]
  }

  /** Inserting the next provider anywhere gives a list of all of them. */
  lemma Inserted(rest: seq<nat>, k: nat, x: nat)
    requires k <= |rest| == x && InRange(rest, x) && forall i: nat | i < x :: i in rest
    ensures var all := rest[..k] + [x] + rest[k..];
      |all| == x + 1 && InRange(all, x + 1) && forall i: nat | i < x + 1 :: i in all
  {
    var all := rest[..k] + [x] + rest[k..];
    assert rest == rest[..k] + rest[k..];
    forall i: nat | i < x + 1 ensures i in all {
      if i < x { assert i in rest; } else { assert all[k] == x; }
    }
  }

  function Place(names: seq<string>, usage: map<string, Use>, order: seq<nat>, i: nat): (k: nat)
    requires i < |names| && InRange(order, |names|)
    ensures k <= |order|
    ensures forall a | 0 <= a < k :: !Precedes(names, usage, i, order[a])
    ensures k < |order| ==> Precedes(names, usage, i, order[k])
  {
    if order == [] || Precedes(names, usage, i, order[0]) then 0
    else 1 + Place(names, usage, order[1..], i)
  }

  lemma Transitive(names: seq<string>, usage: map<string, Use>, i: nat, j: nat, k: nat)
    requires i < |names| && j < |names| && k < |names|
    requires Precedes(names, usage, i, j) && Precedes(names, usage, j, k)
    ensures Precedes(names, usage, i, k)
  {
  }

  /** At its place, the new last provider goes after all before it and before all after it. */
  lemma PlaceFits(names: seq<string>, usage: map<string, Use>, rest: seq<nat>, k: nat, x: nat, a: nat)
    requires x < |names| && InRange(rest, x) && Ordered(names, usage, rest) && a < |rest|
    requires k == Place(names, usage, rest, x)
    ensures if a < k then Precedes(names, usage, rest[a], x) else Precedes(names, usage, x, rest[a])
  {
    if a > k { Transitive(names, usage, x, rest[k], rest[a]); }
  }

  lemma InsertKeepsOrder(names: seq<string>, usage: map<string, Use>, rest: seq<nat>, k: nat, x: nat, order: seq<nat>)
    requires x < |names| && InRange(rest, x) && Ordered(names, usage, rest) && k == Place(names, usage, rest, x)
    requires order == rest[..k] + [x] + rest[k..]
    ensures InRange(order, |names|) && Ordered(names, usage, order)
  {
    hide Precedes;
    forall a, b | 0 <= a < b < |order| ensures order[a] < |names| && order[b] < |names| && Precedes(names, usage, order[a], order[b]) {
      assert order[a] == if a < k then rest[a] else if a == k then x else rest[a - 1];
      assert order[b] == if b < k then rest[b] else if b == k then x else rest[b - 1];
      if a == k { PlaceFits(names, usage, rest, k, x, b - 1); }
      if b == k { PlaceFits(names, usage, rest, k, x, a); }
    }
  }

  lemma {:induction false} OrderIsStable(names: seq<string>, usage: map<string, Use>, n: nat)
    requires n <= |names|
    ensures Ordered(names, usage, Order(names, usage, n))
  {
    if n > 0 {
      OrderIsStable(names, usage, n - 1);
      var rest := Order(names, usage, n - 1);
      InsertKeepsOrder(names, usage, rest, Place(names, usage, rest, n - 1), n - 1, Order(names, usage, n));
    }
  }

  /** The specification leaves no choice: a strictly ordered list of the same providers is this one. */
  lemma {:induction false} OrderIsUnique(names: seq<string>, usage: map<string, Use>, x: seq<nat>, y: seq<nat>)
    requires InRange(x, |names|) && InRange(y, |names|) && Ordered(names, usage, x) && Ordered(names, usage, y)
    requires forall i: nat :: i in x <==> i in y
    ensures x == y
    decreases |x|
  {
    assert y != [] ==> y[0] in y;
    if x != [] {
      assert x[0] in x && x[0] in y;
      assert y[0] in y && y[0] in x;
      var a :| 0 <= a < |y| && y[a] == x[0];
      var b :| 0 <= b < |x| && x[b] == y[0];
      assert x[0] == y[0];
      forall i: nat ensures i in x[1..] <==> i in y[1..] {
        RestHas(names, usage, x, i);
        RestHas(names, usage, y, i);
      }
      OrderIsUnique(names, usage, x[1..], y[1..]);
      assert x == [x[0]] + x[1..] && y == [y[0]] + y[1..];
    }
  }

  lemma RestHas(names: seq<string>, usage: map<string, Use>, x: seq<nat>, i: nat)
    requires x != [] && InRange(x, |names|) && Ordered(names, usage, x)
    ensures i in x[1..] <==> i in x && i != x[0]
  {
  }

  // ----- The tries

  /** What happens at one provider's turn. */
  datatype Turn =
    | SpentBudget                          // reserve reports false
    | ReserveBroke                         // reserve reports an error
    | Answered(id: nat, results: nat)
    | Failed(id: nat, results: nat, msg: string)
    | RecordBroke(id: nat)                 // the outcome could not be written

  datatype Event = RowInserted(provider: nat, id: nat) | Called(provider: nat) | RowUpdated(id: nat, results: nat, msg: string)

  datatype Outcome = From(provider: nat) | NoBudget | AllFailed(errs: seq<string>) | DatabaseError

  predicate GoesOn(t: Turn) {
    t.SpentBudget? || t.Failed?
  }

  function Messages(turns: seq<Turn>): seq<string> {
    if turns == [] then []
    else
      var last := turns[|turns| - 1];
      Messages(turns[..|turns| - 1]) + (if last.Failed? then [last.msg] else [])
  }

  lemma {:induction false} NoMessagesMeansAllSpent(turns: seq<Turn>)
    requires forall k | 0 <= k < |turns| :: GoesOn(turns[k])
    ensures Messages(turns) == [] <==> forall k | 0 <= k < |turns| :: turns[k].SpentBudget?
  {
    if turns != [] {
      var n := |turns| - 1;
      NoMessagesMeansAllSpent(turns[..n]);
      assert forall k | 0 <= k < n :: turns[..n][k] == turns[k];
    }
  }

  /** The first turn that ends the search, or the number of turns when none does. */
  function Stop(turns: seq<Turn>): (k: nat)
    ensures k <= |turns| && (forall j | 0 <= j < k :: GoesOn(turns[j])) && (k < |turns| ==> !GoesOn(turns[k]))
  {
    if turns == [] || !GoesOn(turns[0]) then 0 else 1 + Stop(turns[1..])
  }

  function OutcomeOf(order: seq<nat>, turns: seq<Turn>): Outcome
    requires |order| == |turns|
  {
    var k := Stop(turns);
    if k < |turns| then (if turns[k].Answered? then From(order[k]) else DatabaseError)
    else if Messages(turns) != [] then AllFailed(Messages(turns))
    else NoBudget
  }

  /** What one turn writes and calls, in order. */
  function TurnLog(provider: nat, t: Turn): seq<Event> {
    match t
    case SpentBudget => []
    case ReserveBroke => []
    case Answered(id, n) => [RowInserted(provider, id), Called(provider), RowUpdated(id, n, "")]
    case Failed(id, n, msg) => [RowInserted(provider, id), Called(provider), RowUpdated(id, n, msg)]
    case RecordBroke(id) => [RowInserted(provider, id), Called(provider)]
  }

  function Log(order: seq<nat>, turns: seq<Turn>, k: nat): seq<Event>
    requires k <= |turns| && |order| == |turns|
  {
    if k == 0 then [] else Log(order, turns, k - 1) + TurnLog(order[k - 1], turns[k - 1])
  }

  function Taken(turns: seq<Turn>): (k: nat)
    ensures k <= |turns|
  {
    if Stop(turns) < |turns| then Stop(turns) + 1 else Stop(turns)
  }

  /** Whoever has more of its budget left is tried earlier, and the list decides between equals. */
  ghost predicate MostLeftFirst(names: seq<string>, usage: map<string, Use>, order: seq<nat>)
    requires InRange(order, |names|)
  {
    forall a, b | 0 <= a < b < |order| ::
      && !MoreLeft(usage, names[order[b]], names[order[a]])
      && (MoreLeft(usage, names[order[a]], names[order[b]]) || order[a] < order[b])
  }

  lemma OrderedIsMostLeftFirst(names: seq<string>, usage: map<string, Use>, order: seq<nat>)
    requires InRange(order, |names|)
    ensures Ordered(names, usage, order) <==> MostLeftFirst(names, usage, order)
  {
    hide MoreLeft, Share;
    forall a, b | 0 <= a < b < |order|
      ensures Precedes(names, usage, order[a], order[b]) <==>
        && !MoreLeft(usage, names[order[b]], names[order[a]])
        && (MoreLeft(usage, names[order[a]], names[order[b]]) || order[a] < order[b])
    {
      MoreLeftIsLargerShare(usage, names[order[a]], names[order[b]]);
      MoreLeftIsLargerShare(usage, names[order[b]], names[order[a]]);
    }
  }

  method Try(names: seq<string>, usage: map<string, Use>, turns: seq<Turn>)
    returns (out: Outcome, order: seq<nat>, log: seq<Event>)
    requires |turns| == |names|
    ensures |order| == |names| && InRange(order, |names|) && Ordered(names, usage, order) && MostLeftFirst(names, usage, order)
    ensures forall i: nat | i < |names| :: i in order
    ensures out == OutcomeOf(order, turns) && log == Log(order, turns, Taken(turns))
  {
    order := Order(names, usage, |names|);
    OrderIsStable(names, usage, |names|);
    OrderedIsMostLeftFirst(names, usage, order);
    out, log := TryInOrder(order, turns);
  }

  /** The loop: on a spent or failing provider the next one gets its turn. */
  method TryInOrder(order: seq<nat>, turns: seq<Turn>) returns (out: Outcome, log: seq<Event>)
    requires |turns| == |order|
    ensures out == OutcomeOf(order, turns) && log == Log(order, turns, Taken(turns))
  {
    hide TurnLog;
    log := [];
    var errs: seq<string> := [];
    var k := 0;
    while k < |turns|
      invariant 0 <= k <= Stop(turns)
      invariant errs == Messages(turns[..k])
      invariant log == Log(order, turns, k)
    {
      var t := turns[k];
      var more := TakeTurn(order[k], t);
      log := log + more;
      assert log == Log(order, turns, k + 1);
      if t.Answered? {
        return From(order[k]), log;
      }
      if !GoesOn(t) {
        return DatabaseError, log;
      }
      if t.Failed? {
        errs := errs + [t.msg];
      }
      assert turns[..k + 1][..k] == turns[..k];
      k := k + 1;
    }
    assert turns[..k] == turns;
    out := if errs != [] then AllFailed(errs) else NoBudget;
  }

  /** Reserve, then search, then record: nothing is called that was not reserved first. */
  method TakeTurn(provider: nat, t: Turn) returns (log: seq<Event>)
    ensures log == TurnLog(provider, t)
  {
    if t.SpentBudget? || t.ReserveBroke? {
      return [];
    }
    log := [RowInserted(provider, t.id)];
    log := log + [Called(provider)];
    if t.RecordBroke? {
      return log;
    }
    log := log + [RowUpdated(t.id, t.results, if t.Failed? then t.msg else "")];
  }

  // ----- What the outcome and the calls mean

  function FailedTurns(turns: seq<Turn>, k: nat): set<nat>
    requires k <= |turns|
  {
    set j: nat | j < k && turns[j].Failed?
  }

  /** How many of the first k turns failed. */
  function FailedBefore(turns: seq<Turn>, k: nat): nat
    requires k <= |turns|
  {
    |FailedTurns(turns, k)|
  }

  lemma OneMoreFailed(turns: seq<Turn>, k: nat)
    requires k < |turns|
    ensures FailedBefore(turns, k + 1) == FailedBefore(turns, k) + (if turns[k].Failed? then 1 else 0)
  {
    var before := FailedTurns(turns, k);
    assert FailedTurns(turns, k + 1) == if turns[k].Failed? then before + {k} else before;
  }

  /** The errors are those of the failed turns, each once and in the order of the turns. */
  lemma {:induction false} MessagesAreInOrder(turns: seq<Turn>)
    ensures |Messages(turns)| == FailedBefore(turns, |turns|)
    ensures forall k | 0 <= k < |turns| && turns[k].Failed? ::
      FailedBefore(turns, k) < |Messages(turns)| && Messages(turns)[FailedBefore(turns, k)] == turns[k].msg
  {
    hide FailedBefore;
    if turns != [] {
      var n := |turns| - 1;
      var init := turns[..n];
      MessagesAreInOrder(init);
      OneMoreFailed(turns, n);
      forall k | 0 <= k <= n ensures FailedBefore(init, k) == FailedBefore(turns, k) { SamePrefix(turns, n, k); }
      forall k | 0 <= k < |turns| && turns[k].Failed?
        ensures FailedBefore(turns, k) < |Messages(turns)| && Messages(turns)[FailedBefore(turns, k)] == turns[k].msg
      {
        if k < n { assert init[k] == turns[k]; }
      }
    } else {
      NoneFailedYet(turns);
    }
  }

  lemma NoneFailedYet(turns: seq<Turn>)
    ensures FailedBefore(turns, 0) == 0
  {
    assert FailedTurns(turns, 0) == {};
  }

  lemma SamePrefix(turns: seq<Turn>, n: nat, k: nat)
    requires k <= n <= |turns|
    ensures FailedBefore(turns[..n], k) == FailedBefore(turns, k)
  {
    assert FailedTurns(turns[..n], k) == FailedTurns(turns, k);
  }

  /** The search got to the k-th turn: all before were spent or failing. */
  predicate Reached(turns: seq<Turn>, k: nat) {
    k < |turns| && forall j | 0 <= j < k :: GoesOn(turns[j])
  }

  /**
    The provider returned is the first in the order that is neither spent nor failing, no budget
    is reported exactly when every provider was spent at its turn, the errors of failing providers
    come back, in order, exactly when all that were not spent failed, and an error of the database
    ends the search at the turn it happens in.
  */
  lemma OutcomeMeans(order: seq<nat>, turns: seq<Turn>)
    requires |order| == |turns|
    ensures forall k: nat | Reached(turns, k) && turns[k].Answered? :: OutcomeOf(order, turns) == From(order[k])
    ensures OutcomeOf(order, turns).From? ==> exists k: nat :: Reached(turns, k) && turns[k].Answered?
    ensures OutcomeOf(order, turns) == DatabaseError <==>
      exists k: nat :: Reached(turns, k) && (turns[k].ReserveBroke? || turns[k].RecordBroke?)
    ensures OutcomeOf(order, turns) == NoBudget <==> forall k | 0 <= k < |turns| :: turns[k].SpentBudget?
    ensures OutcomeOf(order, turns).AllFailed? <==>
      (forall k | 0 <= k < |turns| :: GoesOn(turns[k])) && exists k :: 0 <= k < |turns| && turns[k].Failed?
    ensures OutcomeOf(order, turns).AllFailed? ==>
      && |OutcomeOf(order, turns).errs| == FailedBefore(turns, |turns|)
      && forall k | 0 <= k < |turns| && turns[k].Failed? ::
           FailedBefore(turns, k) < |OutcomeOf(order, turns).errs| && OutcomeOf(order, turns).errs[FailedBefore(turns, k)] == turns[k].msg
  {
    hide FailedBefore;
    var k := Stop(turns);
    if k == |turns| {
      NoMessagesMeansAllSpent(turns);
      MessagesAreInOrder(turns);
    } else {
      assert Reached(turns, k);
    }
  }

  /** Every row is followed at once by the one call it was inserted for, and every call follows its row. */
  ghost predicate Paired(log: seq<Event>) {
    && (forall a {:trigger log[a].RowInserted?} | 0 <= a < |log| && log[a].RowInserted? ::
          a + 1 < |log| && log[a + 1] == Called(log[a].provider))
    && (forall a {:trigger log[a].Called?} | 0 <= a < |log| && log[a].Called? :: a > 0 && log[a - 1].RowInserted?)
  }

  lemma {:induction false} EveryCallIsCounted(order: seq<nat>, turns: seq<Turn>, k: nat)
    requires |order| == |turns| && k <= |turns|
    ensures Paired(Log(order, turns, k))
  {
    if k > 0 {
      EveryCallIsCounted(order, turns, k - 1);
      OneMoreTurn(Log(order, turns, k - 1), order[k - 1], turns[k - 1]);
    }
  }

  lemma OneMoreTurn(log: seq<Event>, provider: nat, t: Turn)
    requires Paired(log)
    ensures Paired(log + TurnLog(provider, t))
  {
  }

  lemma {:induction false} CallsComeFromTurns(order: seq<nat>, turns: seq<Turn>, k: nat, a: nat)
    requires |order| == |turns| && k <= |turns| && a < |Log(order, turns, k)| && Log(order, turns, k)[a].Called?
    ensures exists j :: 0 <= j < k && Log(order, turns, k)[a].provider == order[j]
  {
    var before := Log(order, turns, k - 1);
    if a < |before| {
      CallsComeFromTurns(order, turns, k - 1, a);
    } else {
      assert Log(order, turns, k)[a].provider == order[k - 1];
    }
  }

  predicate Distinct(order: seq<nat>) {
    forall a, b | 0 <= a < b < |order| :: order[a] != order[b]
  }

  lemma OrderedIsDistinct(names: seq<string>, usage: map<string, Use>, order: seq<nat>)
    requires InRange(order, |names|) && Ordered(names, usage, order)
    ensures Distinct(order)
  {
  }

  lemma TurnCalls(provider: nat, t: Turn)
    ensures forall i | 0 <= i < |TurnLog(provider, t)| && TurnLog(provider, t)[i].Called? ::
      i == 1 && TurnLog(provider, t)[i].provider == provider
  {
  }

  lemma {:induction false} CalledOnce(order: seq<nat>, turns: seq<Turn>, k: nat, a: nat, b: nat)
    requires |order| == |turns| && k <= |turns| && Distinct(order)
    requires a < b < |Log(order, turns, k)| && Log(order, turns, k)[a].Called? && Log(order, turns, k)[b].Called?
    ensures Log(order, turns, k)[a].provider != Log(order, turns, k)[b].provider
  {
    TurnCalls(order[k - 1], turns[k - 1]);
    hide TurnLog;
    var before := Log(order, turns, k - 1);
    if b < |before| {
      CalledOnce(order, turns, k - 1, a, b);
    } else if a < |before| {
      CallsComeFromTurns(order, turns, k - 1, a);
    }
  }

  /** One search makes at most one call to each provider. */
  lemma NoProviderIsCalledTwice(
    names: seq<string>, usage: map<string, Use>, order: seq<nat>, turns: seq<Turn>, a: nat, b: nat)
    requires |order| == |turns| && InRange(order, |names|) && Ordered(names, usage, order)
    requires a < b < |Log(order, turns, Taken(turns))|
    requires Log(order, turns, Taken(turns))[a].Called? && Log(order, turns, Taken(turns))[b].Called?
    ensures Log(order, turns, Taken(turns))[a].provider != Log(order, turns, Taken(turns))[b].provider
  {
    OrderedIsDistinct(names, usage, order);
    CalledOnce(order, turns, Taken(turns), a, b);
  }

  // ----- What one search writes

  /** The events of the j-th turn stand together in the log, at this place. */
  function PlaceOf(order: seq<nat>, turns: seq<Turn>, j: nat): nat
    requires |order| == |turns| && j <= |turns|
  {
    |Log(order, turns, j)|
  }

  /**
    A turn that was spent, or whose reservation broke, writes and calls nothing. Any other inserts its
    row, calls, and then writes the number of results and the error, none for an answer, to that row,
    unless that write breaks.
  */
  ghost predicate Recorded(log: seq<Event>, at: nat, provider: nat, t: Turn, next: nat) {
    at <= next <= |log| &&
    match t
    case SpentBudget => next == at
    case ReserveBroke => next == at
    case Answered(id, n) => log[at..next] == [RowInserted(provider, id), Called(provider), RowUpdated(id, n, "")]
    case Failed(id, n, msg) => log[at..next] == [RowInserted(provider, id), Called(provider), RowUpdated(id, n, msg)]
    case RecordBroke(id) => log[at..next] == [RowInserted(provider, id), Called(provider)]
  }

  lemma {:induction false} EveryTurnIsRecorded(order: seq<nat>, turns: seq<Turn>, k: nat, j: nat)
    requires |order| == |turns| && j < k <= |turns|
    ensures Recorded(Log(order, turns, k), PlaceOf(order, turns, j), order[j], turns[j], PlaceOf(order, turns, j + 1))
  {
    hide Recorded, TurnLog;
    var before, more := Log(order, turns, k - 1), TurnLog(order[k - 1], turns[k - 1]);
    var a, b := PlaceOf(order, turns, j), PlaceOf(order, turns, j + 1);
    if j < k - 1 {
      EveryTurnIsRecorded(order, turns, k - 1, j);
      RecordStays(before, more, a, order[j], turns[j], b);
    } else {
      TurnIsRecorded(before, order[j], turns[j]);
    }
  }

  lemma RecordStays(log: seq<Event>, more: seq<Event>, at: nat, provider: nat, t: Turn, next: nat)
    requires Recorded(log, at, provider, t, next)
    ensures Recorded(log + more, at, provider, t, next)
  {
    assert (log + more)[at..next] == log[at..next];
  }

  lemma TurnIsRecorded(log: seq<Event>, provider: nat, t: Turn)
    ensures Recorded(log + TurnLog(provider, t), |log|, provider, t, |log| + |TurnLog(provider, t)|)
  {
    var all := log + TurnLog(provider, t);
    assert all[|log|..|all|] == TurnLog(provider, t);
  }
}
