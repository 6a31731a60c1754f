/**
  The life of a source (advance in internal/pipeline/lifecycle.go, failed and makeManual in
  check.go, advancePortfolio in portfolio.go, patchSource in internal/server/private.go).

  Four functions of the engine write one row and share the counter of empty checks in a row, and
  the owner edits the row by hand between checks. Checks and edits of one source follow one
  another. Times are hours.
*/
module Lifecycle {
  import opened Prelude

  datatype Status = Candidate | Probation | Active | Retired | ByHand

  /** Event pages of several sites, portfolios and directories, and the two kinds of search. */
  datatype Kind = EventPage(site: string) | Portfolio | Directory | SearchQuery | PostSearch

  datatype Row = Row(
    kind: Kind,
    hasAddress: bool,      // a page has a URL, a search has a query
    status: Status,
    empty: nat,            // empty_checks_in_row
    checks: nat,
    changed: Time,         // status_changed_at
    next: Option<Time>)    // next_check_at, None for at once

  datatype Settings = Settings(
    retireAfter: int,      // retire_after_empty_checks
    probationWeeks: int,
    activeDays: int,
    portfolioDays: int,
    searchDays: int,
    postSearchDays: int,
    retiredDays: int)

  /** What a check of an event page kept, as Resolve counts it. */
  datatype Stats = Stats(kept: nat, keptWithPeople: nat)

  datatype Outcome =
    | Loaded(stats: Stats)     // an event page was read
    | Listed(found: nat)       // a portfolio or a search brought this many entries
    | Refused                  // the site blocks the bot
    | Gone                     // 404, 410 or no such host
    | Broke                    // any other failure
    | Waits                    // a search without provider or budget
    | ProviderFailed           // a search whose provider failed, which is not the search's fault

  datatype Check = Check(cfg: Settings, outcome: Outcome, now: Time)

  /** What the owner may change by hand. The database says what time it is ten years on. */
  datatype Edit = Edit(status: Option<Status>, kind: Option<Kind>, now: Time, tenYearsOn: Time)

  const TEN_YEARS := 10 * 365 * 24

  function Moved(r: Row, status: Status, empty: nat, now: Time, next: Time): Row {
    r.(status := status, empty := empty, checks := r.checks + 1,
       changed := if r.status == status then r.changed else now, next := Some(next))
  }

  predicate ProbationOver(r: Row, cfg: Settings, now: Time) {
    now - r.changed > cfg.probationWeeks * 7 * 24
  }

  function Advance(r: Row, cfg: Settings, st: Stats, now: Time): Row {
    var empty := if st.kept > 0 then 0 else r.empty + 1;
    var status :=
      match r.status
      case Candidate => if st.keptWithPeople > 0 then Active else Probation
      case Probation =>
        if st.keptWithPeople > 0 then Active
        else if ProbationOver(r, cfg, now) then Retired else Probation
      case Active => if empty >= cfg.retireAfter then Retired else Active
      case Retired => if st.kept > 0 then Probation else Retired
      case ByHand => ByHand;
    var days := if status == Retired then cfg.retiredDays else cfg.activeDays;
    Moved(r, status, empty, now, now + days * 24 - 2)
  }

  function AdvancePortfolio(r: Row, cfg: Settings, found: nat, now: Time): Row {
    var empty := if found > 0 then 0 else r.empty + 1;
    var status :=
      if found > 0 then Active
      else if r.status == Candidate then Probation
      else if (r.status == Probation && ProbationOver(r, cfg, now)) || (r.status == Active && empty >= cfg.retireAfter)
      then Retired
      else r.status;
    var days :=
      if status == Retired then cfg.retiredDays
      else if r.kind == SearchQuery then cfg.searchDays
      else if r.kind == PostSearch then cfg.postSearchDays
      else cfg.portfolioDays;
    Moved(r, status, empty, now, now + days * 24 - 2)
  }

  /** A failure counts like a check that found nothing. It retires active sources, and any whose page is gone. */
  function Failed(r: Row, cfg: Settings, gone: bool, now: Time): Row {
    var empty := r.empty + 1;
    var status :=
      if gone then Retired
      else if r.status == Candidate then Probation
      else if r.status == Active && empty >= cfg.retireAfter then Retired
      else r.status;
    var next :=
      if gone then now + TEN_YEARS
      else if status == Retired then now + cfg.retiredDays * 24
      else now + cfg.activeDays * 24 - 2;
    Moved(r, status, empty, now, next)
  }

  function MakeManual(r: Row, now: Time): Row {
    r.(status := ByHand, changed := now)
  }

  /** CheckSource: which of the four functions a check ends in. */
  function Checked(r: Row, c: Check): Row {
    if !r.hasAddress || r.status == ByHand then r
    else
      match c.outcome
      case Loaded(st) => Advance(r, c.cfg, st, c.now)
      case Listed(found) => AdvancePortfolio(r, c.cfg, found, c.now)
      case Refused => MakeManual(r, c.now)
      case Gone => Failed(r, c.cfg, true, c.now)
      case Broke => Failed(r, c.cfg, false, c.now)
      case Waits => r
      case ProviderFailed => r.(next := Some(c.now + c.cfg.activeDays * 24))
  }

  /** Whether patchSource takes the edit: only a page with an address can list something else. */
  predicate Accepted(r: Row, e: Edit) {
    e.kind.Some? ==> r.hasAddress && !Searches(r.kind) && !Searches(e.kind.value)
  }

  /** patchSource. A change of status starts the counter again. */
  function Edited(r: Row, e: Edit): Row {
    if !Accepted(r, e) then r
    else
      var status := if e.status.Some? then e.status.value else r.status;
      var kind := if e.kind.Some? then e.kind.value else r.kind;
      var moved := status != r.status;
      r.(kind := kind, status := status,
         changed := if moved then e.now else r.changed,
         empty := if moved then 0 else r.empty,
         next := if (moved && status in {Active, Probation, Candidate}) || kind != r.kind then None
                 else if e.status == Some(Retired) then Some(e.tenYearsOn)
                 else r.next)
  }

  predicate Searches(kind: Kind) {
    kind == SearchQuery || kind == PostSearch
  }

  /** Outcomes a check of this kind of source can have. An event with people that is kept is a kept event. */
  predicate Possible(kind: Kind, o: Outcome) {
    match o
    case Loaded(st) => kind.EventPage? && (st.keptWithPeople > 0 ==> st.kept > 0)
    case Listed(_) => !kind.EventPage?
    case Refused => !Searches(kind)
    case Gone => !Searches(kind)
    case Broke => !Searches(kind)
    case Waits => Searches(kind)
    case ProviderFailed => Searches(kind)
  }

  class Source {
    var row: Row

    constructor (row: Row)
      ensures this.row == row
    {
      this.row := row;
    }

    method CheckSource(c: Check)
      requires Possible(row.kind, c.outcome)
      modifies this
      ensures row == Checked(old(row), c)
      ensures row.kind == old(row).kind && row.hasAddress == old(row).hasAddress
      ensures old(row).status == ByHand ==> row == old(row)
      ensures row.status == Candidate ==> old(row).status == Candidate
    {
      if !row.hasAddress || row.status == ByHand {
        return;
      }
      match c.outcome {
        case Loaded(st) => row := Advance(row, c.cfg, st, c.now);
        case Listed(found) => row := AdvancePortfolio(row, c.cfg, found, c.now);
        case Refused => row := MakeManual(row, c.now);
        case Gone => row := Failed(row, c.cfg, true, c.now);
        case Broke => row := Failed(row, c.cfg, false, c.now);
        case Waits =>
        case ProviderFailed => row := row.(next := Some(c.now + c.cfg.activeDays * 24));
      }
    }

    /** `ok` is false for a request that is turned down. */
    method PatchSource(e: Edit) returns (ok: bool)
      modifies this
      ensures row == Edited(old(row), e) && ok == Accepted(old(row), e)
      ensures !ok ==> row == old(row)
      ensures ok && e.status.Some? ==> row.status == e.status.value
      ensures row.status != old(row).status ==> row.empty == 0 && row.changed == e.now
      ensures row.status == old(row).status ==> row.empty == old(row).empty && row.changed == old(row).changed
      ensures ok <==> (e.kind.Some? ==> row.hasAddress && !Searches(old(row).kind) && !Searches(e.kind.value))
      ensures ok && e.kind.Some? ==> row.kind == e.kind.value
      ensures ok && row.kind != old(row).kind ==> row.next.None?
      ensures row.status != old(row).status && row.status in {Active, Probation, Candidate} ==> row.next.None?
      ensures ok && row.kind == old(row).kind && e.status == Some(Retired) ==> row.next == Some(e.tenYearsOn)
      ensures ok && row.kind == old(row).kind && (row.status == old(row).status || row.status == ByHand) && e.status != Some(Retired) ==>
        row.next == old(row).next
      ensures row.checks == old(row).checks && row.hasAddress == old(row).hasAddress
    {
      ok := Accepted(row, e);
      row := Edited(row, e);
    }
  }

  // ----- Whole lives

  datatype Step = Checks(check: Check) | Edits(edit: Edit)

  function Stepped(r: Row, s: Step): Row {
    match s
    case Checks(c) => Checked(r, c)
    case Edits(e) => Edited(r, e)
  }

  /** The row after the first n steps, from any row. */
  function After(r: Row, steps: seq<Step>, n: nat): Row
    requires n <= |steps|
  {
    if n == 0 then r else Stepped(After(r, steps, n - 1), steps[n - 1])
  }

  /** Every check has an outcome that its kind of source can have, and uses the threshold. */
  ghost predicate AllPossible(r: Row, steps: seq<Step>, threshold: int) {
    forall i | 0 <= i < |steps| && steps[i].Checks? ::
      Possible(After(r, steps, i).kind, steps[i].check.outcome) && steps[i].check.cfg.retireAfter == threshold
  }

  /** A check that found nothing, or failed. */
  predicate Fruitless(o: Outcome) {
    match o
    case Loaded(st) => st.kept == 0
    case Listed(found) => found == 0
    case Gone => true
    case Broke => true
    case Refused => false
    case Waits => false
    case ProviderFailed => false
  }

  /** A step that is no check of the source: a search that was not made, an edit, a source without an address. */
  predicate NoCheck(r: Row, s: Step) {
    s.Edits? || !r.hasAddress || s.check.outcome.Waits? || s.check.outcome.ProviderFailed?
  }

  /**
    How many checks in a row, up to the n-th step, met an active source and were fruitless. A
    source that starts as active brings its counter with it. What is no check is not counted and
    breaks nothing, unless it changes the status.
  */
  function FruitlessInRow(r: Row, steps: seq<Step>, n: nat): nat
    requires n <= |steps|
  {
    if n == 0 then (if r.status == Active then r.empty else 0)
    else OneMoreStep(After(r, steps, n - 1), steps[n - 1], FruitlessInRow(r, steps, n - 1))
  }

  function OneMoreStep(before: Row, s: Step, count: nat): nat {
    if before.status != Active then 0
    else if NoCheck(before, s) then count
    else if Fruitless(s.check.outcome) then count + 1
    else 0
  }

  lemma StepKeepsCounter(r: Row, s: Step, count: nat, threshold: int)
    requires threshold >= 1 && (r.status == Active ==> r.empty == count < threshold)
    requires s.Checks? ==> Possible(r.kind, s.check.outcome) && s.check.cfg.retireAfter == threshold
    ensures Stepped(r, s).status == Active ==> Stepped(r, s).empty == OneMoreStep(r, s, count) < threshold
  {
  }

  /**
    Whatever row a source starts with, and however it is edited between checks: while it is
    active it has found nothing in fewer than N checks in a row, and its counter says how many.
  */
  lemma {:induction false} ActiveStaysBelowThreshold(r: Row, threshold: int, steps: seq<Step>, n: nat)
    requires threshold >= 1 && n <= |steps| && AllPossible(r, steps, threshold)
    requires r.status == Active ==> r.empty < threshold
    ensures After(r, steps, n).status == Active ==>
      After(r, steps, n).empty == FruitlessInRow(r, steps, n) < threshold
  {
    if n > 0 {
      ActiveStaysBelowThreshold(r, threshold, steps, n - 1);
      hide Stepped, OneMoreStep;
      StepKeepsCounter(After(r, steps, n - 1), steps[n - 1], FruitlessInRow(r, steps, n - 1), threshold);
    }
  }

  /**
    An active source leaves `active` in four ways only: the page is gone, the site refuses the bot,
    this is its N-th fruitless check in a row, or the owner says so. On the N-th it always leaves.
  */
  lemma LeavesActiveOnlyWhenDue(r: Row, threshold: int, steps: seq<Step>, n: nat)
    requires threshold >= 1 && n < |steps| && AllPossible(r, steps, threshold)
    requires r.status == Active ==> r.empty < threshold
    requires After(r, steps, n).status == Active
    ensures After(r, steps, n + 1).status != Active <==>
      match steps[n]
      case Edits(e) => Accepted(After(r, steps, n), e) && e.status.Some? && e.status.value != Active
      case Checks(c) =>
        && After(r, steps, n).hasAddress
        && (c.outcome == Gone || c.outcome == Refused || FruitlessInRow(r, steps, n + 1) == threshold)
    ensures steps[n].Checks? && After(r, steps, n + 1).status != Active ==>
      After(r, steps, n + 1).status == if steps[n].check.outcome == Refused then ByHand else Retired
  {
    ActiveStaysBelowThreshold(r, threshold, steps, n);
  }

  /** The check brought people, or startups, or search results. */
  predicate Fruitful(o: Outcome) {
    match o
    case Loaded(st) => st.keptWithPeople > 0
    case Listed(found) => found > 0
    case _ => false
  }

  /** A page that loaded, or a list that came, without anything that makes a source active. */
  predicate Poor(o: Outcome) {
    (o.Loaded? || o.Listed?) && !Fruitful(o)
  }

  /** How each status is entered, for every check of every source that is checked at all. */
  lemma HowEachStatusIsEntered(r: Row, c: Check)
    requires r.hasAddress && r.status != ByHand && Possible(r.kind, c.outcome)
    ensures var s := Checked(r, c).status;
      && (s == Active && r.status != Active <==>
            Fruitful(c.outcome) && r.status != Active && (c.outcome.Listed? || r.status != Retired))
      && (s == Probation && r.status != Probation <==>
            || (r.status == Candidate && (Poor(c.outcome) || c.outcome == Broke))
            || (r.status == Retired && c.outcome.Loaded? && c.outcome.stats.kept > 0))
      && (s == Retired && r.status != Retired <==>
            && r.status != Retired
            && (|| c.outcome == Gone
                || (r.status == Probation && Poor(c.outcome) && c.now - r.changed > c.cfg.probationWeeks * 7 * 24)
                || (r.status == Active && Fruitless(c.outcome) && r.empty + 1 >= c.cfg.retireAfter)
                || (r.status == Active && c.outcome.Loaded? && !Fruitless(c.outcome) && 0 >= c.cfg.retireAfter)))
      && (s == ByHand <==> c.outcome == Refused)
      && (Checked(r, c).changed == if s == r.status then r.changed else c.now)
  {
  }

  // ----- Due in the next run

  /** EnqueueDue selects the source in a run that starts then, as far as the run takes any. */
  predicate Due(r: Row, start: Time) {
    r.hasAddress && r.status != ByHand && (Searches(r.kind) ==> r.status != Retired) && (r.next.Some? ==> r.next.value <= start)
  }

  /** A source of that kind is checked every so many days. */
  function Interval(kind: Kind, cfg: Settings): int {
    match kind
    case EventPage(_) => cfg.activeDays
    case Portfolio => cfg.portfolioDays
    case Directory => cfg.portfolioDays
    case SearchQuery => cfg.searchDays
    case PostSearch => cfg.postSearchDays
  }

  /** A run that starts at `start` and checks the source at `c.now` keeps it in the rhythm of its kind. */
  predicate InRhythm(r: Row, start: Time, c: Check) {
    && r.hasAddress && r.status != ByHand && (c.outcome.Loaded? || c.outcome.Listed?) && Possible(r.kind, c.outcome)
    && start <= c.now && Checked(r, c).status != Retired
  }

  /**
    The slack is two hours: a source that a run checks is due in the run at the same hour one
    interval later if and only if the check came within two hours of the run's start.
  */
  lemma SlackIsTwoHours(r: Row, start: Time, c: Check)
    requires InRhythm(r, start, c)
    ensures Due(Checked(r, c), start + Interval(r.kind, c.cfg) * 24) <==> c.now <= start + 2
    ensures Checked(r, c).kind == r.kind
  {
  }

  /** The same after a failure that does not retire the source, with the interval of active sources. */
  lemma FailureKeepsRhythm(r: Row, start: Time, c: Check)
    requires r.hasAddress && r.status != ByHand && c.outcome == Broke && Possible(r.kind, c.outcome) && start <= c.now
    requires Checked(r, c).status != Retired
    ensures Due(Checked(r, c), start + c.cfg.activeDays * 24) <==> c.now <= start + 2
  {
  }

  /**
    A source that is retired after its check is due again when the recheck days are over, with the two
    hours of slack unless the check failed. A retired search is not checked again at all.
  */
  lemma RetiredWaitsForItsRecheck(r: Row, c: Check, t: Time)
    requires r.hasAddress && r.status != ByHand && Possible(r.kind, c.outcome)
    requires (c.outcome.Loaded? || c.outcome.Listed? || c.outcome.Broke?) && Checked(r, c).status == Retired
    ensures Due(Checked(r, c), t) <==>
      !Searches(r.kind) && t >= c.now + c.cfg.retiredDays * 24 - (if c.outcome == Broke then 0 else 2)
  {
  }

  /** A page that is gone is not fetched again within ten years, and a site that refuses never by itself. */
  lemma GoneWaitsTenYears(r: Row, c: Check, t: Time)
    requires r.hasAddress && r.status != ByHand && Possible(r.kind, c.outcome)
    ensures c.outcome == Gone ==> (Due(Checked(r, c), t) <==> t >= c.now + 87600)
    ensures c.outcome == Refused ==> !Due(Checked(r, c), t)
  {
  }

  /** A search that its provider failed is due again a day or so later, one without budget is still due. */
  lemma FailedSearchComesBack(r: Row, c: Check, t: Time)
    requires r.hasAddress && r.status != ByHand && r.status != Retired && Possible(r.kind, c.outcome)
    ensures c.outcome == ProviderFailed ==> (Due(Checked(r, c), t) <==> t >= c.now + c.cfg.activeDays * 24)
    ensures c.outcome == Waits ==> (Due(Checked(r, c), t) <==> Due(r, t))
    ensures c.outcome == ProviderFailed || c.outcome == Waits ==> Checked(r, c).(next := r.next) == r
  {
  }

  /** The k-th of the runs that start one interval apart. */
  function RunStart(start: Time, days: int, k: nat): Time {
    if k == 0 then start else RunStart(start, days, k - 1) + days * 24
  }

  /** The i-th step is a check of the i-th run, within two hours of its start. */
  predicate OnTime(r: Row, start: Time, days: int, steps: seq<Step>, i: nat)
    requires i < |steps|
  {
    && steps[i].Checks? && Interval(r.kind, steps[i].check.cfg) == days
    && InRhythm(After(r, steps, i), RunStart(start, days, i), steps[i].check)
    && steps[i].check.now <= RunStart(start, days, i) + 2
  }

  /** So a source that is due once, and checked within two hours in every run, is due in every run. */
  lemma {:induction false} DueInEveryRun(r: Row, start: Time, days: int, steps: seq<Step>, n: nat)
    requires n <= |steps| && Due(r, start) && forall i: nat | i < n :: OnTime(r, start, days, steps, i)
    ensures After(r, steps, n).kind == r.kind && Due(After(r, steps, n), RunStart(start, days, n))
  {
    hide Checked, Due, InRhythm;
    if n > 0 {
      DueInEveryRun(r, start, days, steps, n - 1);
      assert OnTime(r, start, days, steps, n - 1);
      SlackIsTwoHours(After(r, steps, n - 1), RunStart(start, days, n - 1), steps[n - 1].check);
    }
  }

  // ----- Counting checks

  /** The step was a check that got an answer from the source, good or bad, and was not refused. */
  predicate CountsAsCheck(r: Row, s: Step) {
    && s.Checks? && r.hasAddress && r.status != ByHand
    && (s.check.outcome.Loaded? || s.check.outcome.Listed? || s.check.outcome.Gone? || s.check.outcome.Broke?)
  }

  function CountedSteps(r: Row, steps: seq<Step>, n: nat): set<nat>
    requires n <= |steps|
  {
    set i: nat | i < n && CountsAsCheck(After(r, steps, i), steps[i])
  }

  lemma StepCounts(r: Row, s: Step)
    ensures Stepped(r, s).checks == r.checks + (if CountsAsCheck(r, s) then 1 else 0)
  {
  }

  /** The column `checks` counts exactly those. */
  lemma {:induction false} ChecksAreCounted(r: Row, steps: seq<Step>, n: nat)
    requires n <= |steps|
    ensures After(r, steps, n).checks == r.checks + |CountedSteps(r, steps, n)|
  {
    hide Stepped, CountsAsCheck;
    if n == 0 {
      assert CountedSteps(r, steps, 0) == {};
    } else {
      ChecksAreCounted(r, steps, n - 1);
      StepCounts(After(r, steps, n - 1), steps[n - 1]);
      var before := CountedSteps(r, steps, n - 1);
      assert CountedSteps(r, steps, n) ==
        if CountsAsCheck(After(r, steps, n - 1), steps[n - 1]) then before + {n - 1} else before;
    }
  }

  // ----- By hand

  /**
    Only the owner takes a source out of `manual` or makes it a candidate again. While it is only
    checked, the row of a manual source does not change at all.
  */
  lemma {:induction false} OnlyTheOwnerMovesIt(r: Row, steps: seq<Step>, m: nat, n: nat)
    requires m <= n <= |steps|
    requires forall i | m <= i < n && steps[i].Edits? :: steps[i].edit.status.None?
    ensures After(r, steps, m).status == ByHand ==> After(r, steps, n).status == ByHand
    ensures After(r, steps, m).status != Candidate ==> After(r, steps, n).status != Candidate
    ensures After(r, steps, m).status == ByHand && (forall i | m <= i < n :: steps[i].Checks?) ==>
      After(r, steps, n) == After(r, steps, m)
  {
    if m < n { OnlyTheOwnerMovesIt(r, steps, m, n - 1); }
  }

  /**
    Why kept events with people must be kept events: without that, a source whose checks before
    failed becomes active with its counter already at the threshold.
  */
  lemma MiscountedPeopleBreakThreshold() returns (r: Row, c: Check)
    ensures c.cfg.retireAfter >= 1 && r.status == Candidate && r.empty == 0
    ensures Checked(r, c).status == Active && Checked(r, c).empty >= c.cfg.retireAfter
  {
    r := Row(EventPage("listing"), true, Candidate, 0, 0, 0, None);
    c := Check(Settings(1, 3, 1, 14, 30, 14, 28), Loaded(Stats(0, 1)), 0);
  }
}
