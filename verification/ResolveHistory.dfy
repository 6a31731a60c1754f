/**
  The resolver as an object, and what holds over whole histories of resolves and of decisions
  by hand (internal/pipeline/resolve.go, internal/server/private.go).
*/
module ResolveHistory {
  import opened Prelude
  import opened Resolve
  import opened ResolveAgain
  import opened ResolveReport

  // ----- What one check counts

  datatype Source = Source(url: string, city: string)

  datatype Stats = Stats(found: nat, kept: nat, unseen: nat, keptWithPeople: nat, people: nat, newPeople: nat)

  /** A page's own address is no identity, and an event without a city is in the source's city. */
  function Prepared(src: Source, e: Event): (p: Event)
    ensures p == e.(city := p.city, url := p.url)
    ensures p.url == "" || p.url != src.url
    ensures e.url != src.url ==> p.url == e.url
    ensures e.city != "" || e.format == "online" ==> p.city == e.city
    ensures e.city == "" && e.format != "online" ==> p.city == src.city
  {
    e.(city := if e.city == "" && src.city != "" && e.format != "online" then src.city else e.city,
       url := if e.url == src.url then "" else e.url)
  }

  function Counted(st: Stats, e: Event, r: Resolved): Stats {
    Stats(st.found, st.kept + (if r.kept then 1 else 0), st.unseen + (if r.isNew then 1 else 0),
          st.keptWithPeople + (if r.kept && |e.people| > 0 then 1 else 0),
          st.people + |e.people|, st.newPeople + NewPeople(r.sightings))
  }

  // ----- What a check resolved

  /** The tables after these events were resolved one after the other. */
  function DbAfter(db: Db, rs: seq<Resolved>): Db {
    if rs == [] then db else rs[|rs| - 1].db
  }

  /** The events of a check were resolved in order, each on what the one before left, up to the first that fails. */
  ghost predicate IsCheck(db: Db, src: Source, es: seq<Event>, rs: seq<Resolved>) {
    && |rs| <= |es|
    && (forall i | 0 <= i < |rs| :: ResolveEvent(DbAfter(db, rs[..i]), Prepared(src, es[i])) == Some(rs[i]))
    && (|rs| < |es| ==> ResolveEvent(DbAfter(db, rs), Prepared(src, es[|rs|])).None?)
  }

  // ----- Counting, without a loop

  function KeptOnes(rs: seq<Resolved>): set<nat> {
    set i: nat | i < |rs| && rs[i].kept
  }

  function NewOnes(rs: seq<Resolved>): set<nat> {
    set i: nat | i < |rs| && rs[i].isNew
  }

  function KeptWithPeople(es: seq<Event>, rs: seq<Resolved>): set<nat>
    requires |rs| <= |es|
  {
    set i: nat | i < |rs| && rs[i].kept && es[i].people != []
  }

  /** One entry for each person of each event. */
  function PeopleOf(es: seq<Event>, n: nat): set<(nat, nat)>
    requires n <= |es|
  {
    set i: nat, j: nat | i < n && j < |es[i].people| :: (i, j)
  }

  /** One entry for each person who was added. */
  function AddedPeople(rs: seq<Resolved>): set<(nat, nat)> {
    set i: nat, j: nat | i < |rs| && j < |rs[i].sightings| && rs[i].sightings[j].step.Appears? && rs[i].sightings[j].isNew :: (i, j)
  }

  /** The numbers of a check are the numbers of these things. */
  ghost predicate StatsAre(st: Stats, es: seq<Event>, rs: seq<Resolved>)
    requires |rs| <= |es|
  {
    && st.kept == |KeptOnes(rs)| && st.unseen == |NewOnes(rs)| && st.keptWithPeople == |KeptWithPeople(es, rs)|
    && st.people == |PeopleOf(es, |rs|)| && st.newPeople == |AddedPeople(rs)|
  }

  lemma {:induction false} Row(i: nat, m: nat) returns (row: set<(nat, nat)>)
    ensures |row| == m && forall x :: x in row <==> x.0 == i && x.1 < m
  {
    row := {};
    if m > 0 {
      row := Row(i, m - 1);
      row := row + {(i, m - 1)};
    }
  }

  lemma {:induction false} RowOfNew(i: nat, ss: seq<Sighting>) returns (row: set<(nat, nat)>)
    ensures |row| == NewPeople(ss)
    ensures forall x :: x in row <==> x.0 == i && x.1 < |ss| && ss[x.1].step.Appears? && ss[x.1].isNew
  {
    row := {};
    if ss != [] {
      var n := |ss| - 1;
      row := RowOfNew(i, ss[..n]);
      if ss[n].step.Appears? && ss[n].isNew { row := row + {(i, n)}; }
    }
  }

  lemma OneMoreKept(rs: seq<Resolved>, r: Resolved)
    ensures |KeptOnes(rs + [r])| == |KeptOnes(rs)| + (if r.kept then 1 else 0)
  {
    assert forall i: nat | i < |rs| :: (rs + [r])[i] == rs[i];
    assert KeptOnes(rs + [r]) == if r.kept then KeptOnes(rs) + {|rs|} else KeptOnes(rs);
  }

  lemma OneMoreNew(rs: seq<Resolved>, r: Resolved)
    ensures |NewOnes(rs + [r])| == |NewOnes(rs)| + (if r.isNew then 1 else 0)
  {
    assert forall i: nat | i < |rs| :: (rs + [r])[i] == rs[i];
    assert NewOnes(rs + [r]) == if r.isNew then NewOnes(rs) + {|rs|} else NewOnes(rs);
  }

  lemma OneMoreWithPeople(es: seq<Event>, rs: seq<Resolved>, r: Resolved)
    requires |rs| < |es|
    ensures |KeptWithPeople(es, rs + [r])| == |KeptWithPeople(es, rs)| + (if r.kept && es[|rs|].people != [] then 1 else 0)
  {
    var n, before := |rs|, KeptWithPeople(es, rs);
    assert forall i: nat | i < |rs| :: (rs + [r])[i] == rs[i];
    assert KeptWithPeople(es, rs + [r]) == if r.kept && es[n].people != [] then before + {n} else before;
  }

  lemma OneMoreCrowd(es: seq<Event>, n: nat)
    requires n < |es|
    ensures |PeopleOf(es, n + 1)| == |PeopleOf(es, n)| + |es[n].people|
  {
    var row := Row(n, |es[n].people|);
    assert PeopleOf(es, n + 1) == PeopleOf(es, n) + row;
  }

  lemma OneMoreAdded(rs: seq<Resolved>, r: Resolved)
    ensures |AddedPeople(rs + [r])| == |AddedPeople(rs)| + NewPeople(r.sightings)
  {
    var row := RowOfNew(|rs|, r.sightings);
    assert AddedPeople(rs + [r]) == AddedPeople(rs) + row;
  }

  lemma CountedStaysRight(st: Stats, es: seq<Event>, rs: seq<Resolved>, e: Event, r: Resolved)
    requires |rs| < |es| && StatsAre(st, es, rs) && e.people == es[|rs|].people
    ensures StatsAre(Counted(st, e, r), es, rs + [r])
  {
    hide KeptOnes, NewOnes, KeptWithPeople, PeopleOf, AddedPeople;
    OneMoreKept(rs, r);
    OneMoreNew(rs, r);
    OneMoreWithPeople(es, rs, r);
    OneMoreCrowd(es, |rs|);
    OneMoreAdded(rs, r);
  }

  lemma NothingCounted(es: seq<Event>)
    ensures StatsAre(Stats(0, 0, 0, 0, 0, 0), es, [])
  {
    assert KeptOnes([]) == {} && NewOnes([]) == {} && KeptWithPeople(es, []) == {} && PeopleOf(es, 0) == {} && AddedPeople([]) == {};
  }

  lemma {:induction false} SameResults(db: Db, src: Source, es: seq<Event>, xs: seq<Resolved>, ys: seq<Resolved>, n: nat)
    requires IsCheck(db, src, es, xs) && IsCheck(db, src, es, ys) && n <= |xs| && n <= |ys|
    ensures xs[..n] == ys[..n]
  {
    hide ResolveEvent, Prepared, DbAfter;
    if n > 0 {
      SameResults(db, src, es, xs, ys, n - 1);
      var x, y := xs[n - 1], ys[n - 1];
      assert Some(x) == Some(y);
      assert xs[..n] == xs[..n - 1] + [x] && ys[..n] == ys[..n - 1] + [y];
    }
  }

  lemma NoMoreResults(db: Db, src: Source, es: seq<Event>, xs: seq<Resolved>, ys: seq<Resolved>)
    requires IsCheck(db, src, es, xs) && IsCheck(db, src, es, ys)
    ensures |xs| >= |ys|
  {
    hide ResolveEvent, Prepared, DbAfter;
    assert xs[..|xs|] == xs;
    if |xs| < |ys| { SameResults(db, src, es, xs, ys, |xs|); }
  }

  /** What was resolved is determined by the events and the tables. */
  lemma CheckIsDetermined(db: Db, src: Source, es: seq<Event>, xs: seq<Resolved>, ys: seq<Resolved>)
    requires IsCheck(db, src, es, xs) && IsCheck(db, src, es, ys)
    ensures xs == ys
  {
    NoMoreResults(db, src, es, xs, ys);
    NoMoreResults(db, src, es, ys, xs);
    SameResults(db, src, es, xs, ys, |xs|);
    assert xs[..|xs|] == xs && ys[..|ys|] == ys;
  }

  class Resolver {
    var db: Db

    constructor (db: Db)
      ensures this.db == db
    {
      this.db := db;
    }

    /** One transaction: all of it, or nothing. */
    method ResolveOne(e: Event) returns (r: Option<Resolved>)
      modifies this
      ensures r == ResolveEvent(old(db), e)
      ensures db == if r.Some? then r.value.db else old(db)
      ensures r.Some? ==> r.value.id < |db.events| && r.value.kept == db.events[r.value.id].kept
      ensures r.Some? ==> |db.events| == |old(db).events| + (if r.value.isNew then 1 else 0)
      ensures r.Some? ==> |db.people| == |old(db).people| + NewPeople(r.value.sightings)
    {
      if ResolveEvent(db, e).Some? {
        ReportIsTheRow(db, e);
        NewMeansAdded(db, e);
      }
      r := Transact(e);
    }

    method Transact(e: Event) returns (r: Option<Resolved>)
      modifies this
      ensures r == ResolveEvent(old(db), e)
      ensures db == if r.Some? then r.value.db else old(db)
    {
      hide StoreEvent, Steps, Take;
      var before := db;
      var s := StoreEvent(db, e);
      if s.None? {
        return None;
      }
      var id, steps := s.value.id, Steps(e);
      db := s.value.db;
      var kept := if s.value.isNew then e.fits else db.events[id].kept;
      var sightings: seq<Sighting> := [];
      var i := 0;
      while i < |steps|
        invariant 0 <= i <= |steps|
        invariant Walk(s.value.db, id, e.city, steps[..i]) == Some(Walked(db, sightings))
      {
        var d := Take(db, id, e.city, steps[i]);
        assert steps[..i + 1][..i] == steps[..i];
        if d.None? {
          WalkStops(s.value.db, id, e.city, steps, i + 1);
          db := before;
          return None;
        }
        db := d.value.db;
        sightings := sightings + [Sighting(steps[i], d.value.who, d.value.isNew)];
        i := i + 1;
      }
      assert steps[..i] == steps;
      return Some(Resolved(db, id, s.value.isNew, kept, sightings));
    }

    /** The events of one check. `rs` is what became of those that were resolved. */
    method Resolve(src: Source, es: seq<Event>) returns (st: Stats, broke: bool, ghost rs: seq<Resolved>)
      modifies this
      ensures IsCheck(old(db), src, es, rs) && db == DbAfter(old(db), rs) && StatsAre(st, es, rs)
      ensures broke <==> |rs| < |es|
      ensures st.found == (if broke then |rs| + 1 else |rs|)
      ensures st.keptWithPeople <= st.kept <= st.found <= |es| && st.unseen <= st.found
      ensures |db.events| == |old(db).events| + st.unseen && |db.people| == |old(db).people| + st.newPeople
    {
      hide ResolveEvent, StatsAre;
      st, broke, rs := Stats(0, 0, 0, 0, 0, 0), false, [];
      NothingCounted(es);
      var i := 0;
      while i < |es|
        invariant 0 <= i <= |es| && !broke && |rs| == i && db == DbAfter(old(db), rs)
        invariant forall k | 0 <= k < i :: ResolveEvent(DbAfter(old(db), rs[..k]), Prepared(src, es[k])) == Some(rs[k])
        invariant StatsAre(st, es, rs)
        invariant st.keptWithPeople <= st.kept <= st.found == i && st.unseen <= st.found
        invariant |db.events| == |old(db).events| + st.unseen && |db.people| == |old(db).people| + st.newPeople
      {
        var e := Prepared(src, es[i]);
        var r := ResolveOne(e);
        if r.None? {
          CountsOneMore(st, es, rs);
          return st.(found := st.found + 1), true, rs;
        }
        CountsOneMore(st, es, rs);
        CountedStaysRight(st.(found := st.found + 1), es, rs, e, r.value);
        st := Counted(st.(found := st.found + 1), e, r.value);
        assert forall k | 0 <= k < i :: (rs + [r.value])[..k] == rs[..k];
        assert (rs + [r.value])[..i] == rs;
        rs := rs + [r.value];
        i := i + 1;
      }
    }
  }

  lemma CountsOneMore(st: Stats, es: seq<Event>, rs: seq<Resolved>)
    requires |rs| <= |es| && StatsAre(st, es, rs)
    ensures StatsAre(st.(found := st.found + 1), es, rs)
  {
  }

  lemma {:induction false} WalkStops(db: Db, event: nat, city: string, steps: seq<Step>, n: nat)
    requires n <= |steps| && Walk(db, event, city, steps[..n]).None?
    ensures Walk(db, event, city, steps).None?
    decreases |steps|
  {
    if n == |steps| {
      assert steps[..n] == steps;
    } else {
      var init := steps[..|steps| - 1];
      assert init[..n] == steps[..n];
      WalkStops(db, event, city, init, n);
    }
  }

  // ----- Histories

  datatype Act = ResolveIt(e: Event) | Decide(i: nat, kept: bool, reason: string)

  function Acted(db: Db, a: Act): Db {
    match a
    case ResolveIt(e) => var r := ResolveEvent(db, e); if r.Some? then r.value.db else db
    case Decide(i, kept, reason) =>
      if i < |db.events| then
        db.(events := db.events[i := db.events[i].(kept := kept, reason := reason, byHand := true)])
      else db
  }

  function After(db: Db, acts: seq<Act>, n: nat): Db
    requires n <= |acts|
  {
    if n == 0 then db else Acted(After(db, acts, n - 1), acts[n - 1])
  }

  predicate DistinctUrls(events: seq<EventRow>) {
    forall i, j | 0 <= i < j < |events| && events[i].url != "" :: events[i].url != events[j].url
  }

  lemma StoreKeepsUrlsDistinct(db: Db, e: Event)
    requires DistinctUrls(db.events) && StoreEvent(db, e).Some?
    ensures DistinctUrls(StoreEvent(db, e).value.db.events)
  {
  }

  lemma ResolveKeepsUrlsDistinct(db: Db, e: Event)
    requires DistinctUrls(db.events) && ResolveEvent(db, e).Some?
    ensures DistinctUrls(ResolveEvent(db, e).value.db.events)
  {
    var s := StoreEvent(db, e).value;
    StoreKeepsUrlsDistinct(db, e);
    WalkSettles(s.db, s.id, e.city, Steps(e));
    var events := ResolveEvent(db, e).value.db.events;
    forall i, j | 0 <= i < j < |events| && events[i].url != "" ensures events[i].url != events[j].url {
      assert EventGrew(s.db.events[i], events[i]) && EventGrew(s.db.events[j], events[j]);
    }
  }

  /** Over any history, no two events have the same canonical address. */
  lemma {:induction false} UrlsStayDistinct(db: Db, acts: seq<Act>, n: nat)
    requires DistinctUrls(db.events) && n <= |acts|
    ensures DistinctUrls(After(db, acts, n).events)
  {
    hide ResolveEvent;
    if n > 0 {
      UrlsStayDistinct(db, acts, n - 1);
      var before, a := After(db, acts, n - 1), acts[n - 1];
      if a.ResolveIt? && ResolveEvent(before, a.e).Some? { ResolveKeepsUrlsDistinct(before, a.e); }
    }
  }

  /** Rows keep their place, and a decision by hand stays what it is. */
  predicate KeepsDecision(a: EventRow, b: EventRow) {
    a.byHand ==> b.byHand && b.kept == a.kept && b.reason == a.reason
  }

  lemma ResolveKeepsDecision(db: Db, e: Event, i: nat)
    requires ResolveEvent(db, e).Some? && i < |db.events|
    ensures i < |ResolveEvent(db, e).value.db.events|
    ensures KeepsDecision(db.events[i], ResolveEvent(db, e).value.db.events[i])
  {
    var s := StoreEvent(db, e).value;
    WalkSettles(s.db, s.id, e.city, Steps(e));
    assert EventGrew(s.db.events[i], ResolveEvent(db, e).value.db.events[i]);
  }

  /** However often and with whatever events the engine resolves, what was decided by hand changes only by hand. */
  lemma {:induction false} HandDecisionsStay(db: Db, acts: seq<Act>, m: nat, n: nat, i: nat)
    requires m <= n <= |acts| && i < |After(db, acts, m).events| && After(db, acts, m).events[i].byHand
    requires forall k | m <= k < n && acts[k].Decide? :: acts[k].i != i
    ensures i < |After(db, acts, n).events| && KeepsDecision(After(db, acts, m).events[i], After(db, acts, n).events[i])
  {
    hide ResolveEvent;
    if m < n {
      HandDecisionsStay(db, acts, m, n - 1, i);
      var before, a := After(db, acts, n - 1), acts[n - 1];
      if a.ResolveIt? && ResolveEvent(before, a.e).Some? { ResolveKeepsDecision(before, a.e, i); }
    }
  }

  /** From the moment of a decision by hand on, the row says what was decided, until the next decision about it. */
  lemma DecisionHolds(db: Db, acts: seq<Act>, m: nat, n: nat)
    requires m < n <= |acts| && acts[m].Decide? && acts[m].i < |After(db, acts, m).events|
    requires forall k | m < k < n && acts[k].Decide? :: acts[k].i != acts[m].i
    ensures var i, events := acts[m].i, After(db, acts, n).events;
      i < |events| && events[i].byHand && events[i].kept == acts[m].kept && events[i].reason == acts[m].reason
  {
    hide ResolveEvent;
    HandDecisionsStay(db, acts, m + 1, n, acts[m].i);
  }

  // ----- Nothing that is known is lost

  /** Fields of an event that are filled stay filled, its address stays the same, and its description never shrinks. */
  predicate KeepsKnown(a: EventRow, b: EventRow) {
    && (a.url != "" ==> b.url == a.url) && (a.venue.Some? ==> b.venue == a.venue)
    && (a.end.Some? ==> b.end.Some?) && (a.address != "" ==> b.address != "") && (a.city != "" ==> b.city != "")
    && (a.price != "" ==> b.price != "") && (a.format != "" ==> b.format != "") && (a.kind != "other" ==> b.kind != "other")
    && |a.description| <= |b.description|
  }

  ghost predicate OnlyGrew(a: Db, b: Db) {
    && OrgsGrew(a.orgs, b.orgs) && PeopleGrew(a.people, b.people)
    && a.appearances <= b.appearances && a.organisings <= b.organisings && a.affiliations <= b.affiliations
    && |a.events| <= |b.events| && forall i | 0 <= i < |a.events| :: KeepsKnown(a.events[i], b.events[i])
  }

  lemma OnlyGrewTwice(a: Db, b: Db, c: Db)
    requires OnlyGrew(a, b) && OnlyGrew(b, c)
    ensures OnlyGrew(a, c)
  {
  }

  lemma GrewIsOnlyGrew(a: Db, b: Db, event: nat)
    requires Grew(a, b, event)
    ensures OnlyGrew(a, b)
  {
  }

  lemma {:induction false} WalkOnlyGrows(db: Db, event: nat, city: string, steps: seq<Step>)
    requires Walk(db, event, city, steps).Some? && event < |db.events|
    ensures OnlyGrew(db, Walk(db, event, city, steps).value.db)
  {
    hide Take, Settled, Grew;
    if steps != [] {
      var n := |steps| - 1;
      WalkOnlyGrows(db, event, city, steps[..n]);
      var before := Walk(db, event, city, steps[..n]).value.db;
      TakeSettles(before, event, city, steps[n]);
      GrewIsOnlyGrew(before, Walk(db, event, city, steps).value.db, event);
      OnlyGrewTwice(db, before, Walk(db, event, city, steps).value.db);
    }
  }

  lemma StoreOnlyGrows(db: Db, e: Event)
    requires StoreEvent(db, e).Some?
    ensures OnlyGrew(db, StoreEvent(db, e).value.db)
  {
  }

  lemma ActOnlyGrows(db: Db, a: Act)
    ensures OnlyGrew(db, Acted(db, a))
  {
    if a.ResolveIt? && ResolveEvent(db, a.e).Some? {
      var s := StoreEvent(db, a.e).value;
      StoreOnlyGrows(db, a.e);
      WalkOnlyGrows(s.db, s.id, a.e.city, Steps(a.e));
      OnlyGrewTwice(db, s.db, ResolveEvent(db, a.e).value.db);
    }
  }

  /** Over any history rows keep their place and their names, links stay, and no known field is lost. */
  lemma {:induction false} NothingKnownIsLost(db: Db, acts: seq<Act>, m: nat, n: nat)
    requires m <= n <= |acts|
    ensures OnlyGrew(After(db, acts, m), After(db, acts, n))
  {
    hide Acted;
    if m < n {
      NothingKnownIsLost(db, acts, m, n - 1);
      ActOnlyGrows(After(db, acts, n - 1), acts[n - 1]);
      OnlyGrewTwice(After(db, acts, m), After(db, acts, n - 1), After(db, acts, n));
    }
  }
}
