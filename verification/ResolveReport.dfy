/**
  What one resolve stores, links and reports (internal/pipeline/resolve.go).

  The statements here are about columns and links, whatever functions produce them.
*/
module ResolveReport {
  import opened Prelude
  import opened Resolve
  import opened ResolveAgain

  // ----- The row of the event

  /** The row that the event was found as, if it was known. */
  function Before(db: Db, e: Event): Option<EventRow> {
    var k := FindEvent(db.events, e);
    if k < |db.events| then Some(db.events[k]) else None
  }

  /** News wins, and silence keeps what was known. */
  predicate Column(news: string, known: string, after: string) {
    after == if news != "" then news else known
  }

  /** The event's row after a resolve, column by column, except for the venue. */
  predicate StoredAs(was: Option<EventRow>, e: Event, row: EventRow) {
    && row.title == e.title && row.norm == e.norm && row.start == e.start
    && (if e.end.Some? then row.end == e.end else row.end == if was.Some? then was.value.end else None)
    && Column(e.address, if was.Some? then was.value.address else "", row.address)
    && Column(e.city, if was.Some? then was.value.city else "", row.city)
    && Column(e.price, if was.Some? then was.value.price else "", row.price)
    && Column(e.format, if was.Some? then was.value.format else "in_person", row.format)
    && (if e.kind != "other" && e.kind != "" then row.kind == e.kind
        else row.kind == if was.Some? then was.value.kind else "other")
    && row.url == (if was.Some? && was.value.url != "" then was.value.url else e.url)
    && row.description in {e.description, if was.Some? then was.value.description else e.description}
    && |row.description| >= |e.description| && (was.Some? ==> |row.description| >= |was.value.description|)
    && (was.Some? && |e.description| <= |was.value.description| ==> row.description == was.value.description)
  }

  /** A fit that was decided by hand stays, with its reason, and otherwise the rules decide. */
  predicate DecidedAs(was: Option<EventRow>, e: Event, row: EventRow) {
    if was.Some? && was.value.byHand then row.byHand && row.kept == was.value.kept && row.reason == was.value.reason
    else !row.byHand && row.kept == e.fits && row.reason == e.reason
  }

  lemma StoreEventStores(db: Db, e: Event)
    requires StoreEvent(db, e).Some?
    ensures var s := StoreEvent(db, e).value;
      && StoredAs(Before(db, e), e, s.db.events[s.id]) && DecidedAs(Before(db, e), e, s.db.events[s.id])
      && s.id == FindEvent(db.events, e) && (s.isNew <==> s.id == |db.events|)
      && s.db == db.(events := s.db.events) && (forall i | 0 <= i < |db.events| && i != s.id :: s.db.events[i] == db.events[i])
      && |s.db.events| == (if s.isNew then |db.events| + 1 else |db.events|)
      && s.db.events[s.id].venue == (if s.isNew then None else db.events[s.id].venue)
  {
  }

  /**
    The event is rejected exactly when the row would end before it starts, or have a format or a type
    that the table does not allow. Only the update of a known event can meet an empty type.
  */
  lemma WhenStoringFails(db: Db, e: Event)
    ensures var was := Before(db, e);
      StoreEvent(db, e).None? <==>
      || (var end := if e.end.Some? then e.end else if was.Some? then was.value.end else None; end.Some? && end.value < e.start)
      || (if e.format != "" then e.format else if was.Some? then was.value.format else "in_person")
           !in {"in_person", "online", "hybrid"}
      || (if was.Some? then (if e.kind == "other" then was.value.kind else e.kind) else if e.kind == "" then "other" else e.kind)
           !in {"pitch", "talk", "panel", "meetup", "workshop", "conference", "sport", "other"}
  {
  }

  /** Resolving fails exactly when the event is rejected or an organisation it names has a name that folds to nothing. */
  lemma WhenResolvingFails(db: Db, e: Event)
    ensures ResolveEvent(db, e).None? <==> StoreEvent(db, e).None? || exists step :: step in Steps(e) && Nameless(step)
  {
    hide StoreEvent, Steps;
    if StoreEvent(db, e).Some? {
      var s := StoreEvent(db, e).value;
      WhenWalkFails(s.db, s.id, e.city, Steps(e));
    }
  }

  predicate Nameless(step: Step) {
    match step
    case Venue(o) => o.norm == ""
    case Organiser(o) => o.norm == ""
    case Appears(p) => p.org.Some? && p.org.value.norm == ""
  }

  lemma WhenStepFails(db: Db, event: nat, city: string, step: Step)
    ensures Take(db, event, city, step).None? <==> Nameless(step)
  {
  }

  lemma {:induction false} WhenWalkFails(db: Db, event: nat, city: string, steps: seq<Step>)
    ensures Walk(db, event, city, steps).None? <==> exists step :: step in steps && Nameless(step)
  {
    hide Take, Nameless;
    if steps != [] {
      var n := |steps| - 1;
      WhenWalkFails(db, event, city, steps[..n]);
      assert steps == steps[..n] + [steps[n]];
      var w := Walk(db, event, city, steps[..n]);
      if w.Some? { WhenStepFails(w.value.db, event, city, steps[n]); }
    }
  }

  /**
    What is reported as kept is what the row of the event says, a decision by hand wins over what the
    rules say, and an event is reported as new exactly when no row was found for it.
  */
  lemma ReportIsTheRow(db: Db, e: Event)
    requires ResolveEvent(db, e).Some?
    ensures var r := ResolveEvent(db, e).value;
      && r.id < |r.db.events| && r.kept == r.db.events[r.id].kept
      && r.id == FindEvent(db.events, e) && (r.isNew <==> r.id == |db.events|)
      && StoredAs(Before(db, e), e, r.db.events[r.id]) && DecidedAs(Before(db, e), e, r.db.events[r.id])
      && (r.id < |db.events| && db.events[r.id].byHand ==> r.kept == db.events[r.id].kept)
      && (!(r.id < |db.events| && db.events[r.id].byHand) ==> r.kept == e.fits)
  {
    hide StoreEvent, StoredAs;
    var s := StoreEvent(db, e).value;
    StoreEventStores(db, e);
    WalkSettles(s.db, s.id, e.city, Steps(e));
    var row, after := s.db.events[s.id], ResolveEvent(db, e).value.db.events[s.id];
    assert EventGrew(row, after);
    VenueIsNoColumn(Before(db, e), e, row, after);
  }

  lemma VenueIsNoColumn(was: Option<EventRow>, e: Event, row: EventRow, after: EventRow)
    requires StoredAs(was, e, row) && after == row.(venue := after.venue)
    ensures StoredAs(was, e, after)
  {
  }

  // ----- Organisations

  /** The columns of an organisation after an upsert: what was empty is filled in, what was known stays. */
  lemma WhatUpsertDoes(orgs: seq<OrgRow>, o: Org, city: string)
    requires Upsert(orgs, o, city).Some?
    ensures var u := Upsert(orgs, o, city).value;
      && u.id < |u.orgs| && u.orgs[u.id].norm == o.norm != ""
      && (u.isNew <==> forall i | 0 <= i < |orgs| :: orgs[i].norm != o.norm)
      && (u.isNew ==> u.orgs == orgs + [OrgRow(o.name, o.norm, o.kind, city, o.website, o.domain)])
      && (!u.isNew ==>
            && u.id < |orgs| == |u.orgs| && (forall i | 0 <= i < u.id :: orgs[i].norm != o.norm)
            && (forall i | 0 <= i < |orgs| && i != u.id :: u.orgs[i] == orgs[i])
            && u.orgs[u.id].name == orgs[u.id].name
            && Column(orgs[u.id].website, o.website, u.orgs[u.id].website)
            && Column(orgs[u.id].domain, o.domain, u.orgs[u.id].domain)
            && Column(orgs[u.id].city, city, u.orgs[u.id].city)
            && u.orgs[u.id].kind == (if orgs[u.id].kind != "other" then orgs[u.id].kind else o.kind))
  {
  }

  /** An organisation whose name folds to nothing is an error, and nothing else is. */
  lemma WhenUpsertFails(orgs: seq<OrgRow>, o: Org, city: string)
    ensures Upsert(orgs, o, city).None? <==> o.norm == ""
  {
  }

  // ----- People

  lemma WhatWithPersonDoes(db: Db, event: nat, city: string, p: Person)
    ensures var d, found := WithPerson(db, event, city, p), FindPerson(db, event, p);
      && d.who < |d.db.people| && (d.isNew <==> found.None?) && (found.Some? ==> d.who == found.value)
      && (d.isNew ==> d.who == |db.people| && |d.db.people| == |db.people| + 1)
      && (!d.isNew ==> |d.db.people| == |db.people|)
      && (forall i | 0 <= i < |db.people| && i != d.who :: d.db.people[i] == db.people[i])
      && (d.isNew ==> d.db.people[d.who] == PersonRow(p.name, p.norm, city, p.affiliation, "other"))
      && (!d.isNew ==>
            && d.db.people[d.who] == db.people[d.who].(headline := d.db.people[d.who].headline)
            && Column(db.people[d.who].headline, p.affiliation, d.db.people[d.who].headline))
  {
  }

  lemma WhatWithAffiliationDoes(db: Db, k: nat, p: Person)
    requires k < |db.people| && WithAffiliation(db, k, p).Some?
    ensures var b := WithAffiliation(db, k, p).value;
      && |b.people| == |db.people| && (forall i | 0 <= i < |db.people| && i != k :: b.people[i] == db.people[i])
      && b.people[k] == db.people[k].(fit := b.people[k].fit)
      && b.people[k].fit ==
           (if p.org.Some? && p.affRole == "founder" && db.people[k].fit == "other" then "founder" else db.people[k].fit)
  {
  }

  /** The person's row after their step: new with what is known, or found with an empty headline filled in. */
  lemma WhatPersonStepDoes(db: Db, event: nat, city: string, p: Person)
    requires Take(db, event, city, Appears(p)).Some?
    ensures var d, found := Take(db, event, city, Appears(p)).value, FindPerson(db, event, p);
      && d.who < |d.db.people| && (d.isNew <==> found.None?) && (found.Some? ==> d.who == found.value)
      && (d.isNew ==> d.who == |db.people| && |d.db.people| == |db.people| + 1)
      && (!d.isNew ==> |d.db.people| == |db.people|)
      && (forall i | 0 <= i < |db.people| && i != d.who :: d.db.people[i] == db.people[i])
      && var row := d.db.people[d.who];
         && row.norm == p.norm
         && row.name == (if d.isNew then p.name else db.people[d.who].name)
         && row.city == (if d.isNew then city else db.people[d.who].city)
         && Column(if d.isNew then "" else db.people[d.who].headline, p.affiliation, row.headline)
         && row.fit == (var fit := if d.isNew then "other" else db.people[d.who].fit;
                        if p.org.Some? && p.affRole == "founder" && fit == "other" then "founder" else fit)
  {
    hide WithPerson, WithAffiliation, FindPerson;
    WhoIsTheSamePerson(db, event, p);
    WhatWithPersonDoes(db, event, city, p);
    var d := WithPerson(db, event, city, p);
    WhatWithAffiliationDoes(d.db, d.who, p);
  }

  // ----- Links

  lemma {:induction false} OrganiserSteps(os: seq<Org>, step: Step)
    ensures step in Organisers(os) <==> step.Organiser? && step.org in os && step.org.name != ""
  {
    if os != [] {
      var n := |os| - 1;
      OrganiserSteps(os[..n], step);
      assert os == os[..n] + [os[n]];
    }
  }

  /** The steps of an event are its venue, its organisers that have a name, and its people. */
  lemma StepsMeans(e: Event, step: Step)
    ensures step in Steps(e) <==>
      match step
      case Venue(o) => e.venue == Some(o)
      case Organiser(o) => o in e.organisers && o.name != ""
      case Appears(p) => p in e.people
  {
    OrganiserSteps(e.organisers, step);
    PeopleSteps(e.people, step);
    var venue := if e.venue.Some? then [Venue(e.venue.value)] else [];
    assert Steps(e) == venue + Organisers(e.organisers) + People(e.people);
  }

  lemma PeopleSteps(ps: seq<Person>, step: Step)
    ensures step in People(ps) <==> step.Appears? && step.person in ps
  {
    if step.Appears? && step.person in ps {
      var i :| 0 <= i < |ps| && ps[i] == step.person;
      assert People(ps)[i] == step;
    }
  }

  ghost predicate Named(orgs: seq<OrgRow>, k: nat, norm: string) {
    k < |orgs| && orgs[k].norm == norm
  }

  /** The organisation of that name is linked to the event. */
  ghost predicate Organises(db: Db, event: nat, o: Org, role: string) {
    exists k: nat :: Named(db.orgs, k, o.norm) && Link(k, event, role) in db.organisings
  }

  /** Someone of that name appears at the event, and has the organisation they were announced with. */
  ghost predicate AppearsAt(db: Db, event: nat, p: Person) {
    exists k: nat :: k < |db.people| && db.people[k].norm == p.norm && Link(k, event, p.role) in db.appearances
      && (p.org.Some? ==> exists m: nat :: Named(db.orgs, m, p.org.value.norm) && Link(k, m, p.affRole) in db.affiliations)
      && (p.org.Some? && p.affRole == "founder" ==> db.people[k].fit != "other")
      && (p.affiliation != "" ==> db.people[k].headline != "")
  }

  lemma SettledIsLinked(db: Db, event: nat, city: string, step: Step, who: nat)
    requires Settled(db, event, city, step, who)
    ensures match step
      case Venue(o) => Organises(db, event, o, "venue")
      case Organiser(o) => Organises(db, event, o, "organiser")
      case Appears(p) => AppearsAt(db, event, p)
  {
    match step
    case Venue(o) => assert Named(db.orgs, who, o.norm);
    case Organiser(o) => assert Named(db.orgs, who, o.norm);
    case Appears(p) =>
      if p.org.Some? { assert Named(db.orgs, OrgAt(db.orgs, p.org.value.norm, 0), p.org.value.norm); }
  }

  /** After a resolve the venue, every organiser that has a name, and everyone on stage are linked to the event. */
  lemma EveryoneIsLinked(db: Db, e: Event)
    requires ResolveEvent(db, e).Some?
    ensures var r := ResolveEvent(db, e).value;
      && (e.venue.Some? ==> Organises(r.db, r.id, e.venue.value, "venue") && r.id < |r.db.events| && r.db.events[r.id].venue.Some?)
      && (forall o | o in e.organisers && o.name != "" :: Organises(r.db, r.id, o, "organiser"))
      && (forall p | p in e.people :: AppearsAt(r.db, r.id, p))
  {
    hide StoreEvent, Steps;
    var s, r := StoreEvent(db, e).value, ResolveEvent(db, e).value;
    WalkSettles(s.db, s.id, e.city, Steps(e));
    if e.venue.Some? { IsLinked(r, e, Venue(e.venue.value)); }
    forall o | o in e.organisers && o.name != "" ensures Organises(r.db, r.id, o, "organiser") { IsLinked(r, e, Organiser(o)); }
    forall p | p in e.people ensures AppearsAt(r.db, r.id, p) { IsLinked(r, e, Appears(p)); }
  }

  lemma IsLinked(r: Resolved, e: Event, step: Step)
    requires AllSettled(r.db, r.id, e.city, r.sightings) && |r.sightings| == |Steps(e)|
    requires forall i | 0 <= i < |Steps(e)| :: r.sightings[i].step == Steps(e)[i]
    requires match step
      case Venue(o) => e.venue == Some(o)
      case Organiser(o) => o in e.organisers && o.name != ""
      case Appears(p) => p in e.people
    ensures match step
      case Venue(o) => Organises(r.db, r.id, o, "venue") && r.id < |r.db.events| && r.db.events[r.id].venue.Some?
      case Organiser(o) => Organises(r.db, r.id, o, "organiser")
      case Appears(p) => AppearsAt(r.db, r.id, p)
  {
    hide Steps, Organises, AppearsAt;
    StepsMeans(e, step);
    var i :| 0 <= i < |Steps(e)| && Steps(e)[i] == step;
    SettledIsLinked(r.db, r.id, e.city, r.sightings[i].step, r.sightings[i].who);
  }

  /** The links that a step may add. */
  ghost predicate LinkedBy(db: Db, event: nat, step: Step, l: Link) {
    match step
    case Venue(o) => l.right == event && l.role == "venue" && Named(db.orgs, l.left, o.norm)
    case Organiser(o) => l.right == event && l.role == "organiser" && Named(db.orgs, l.left, o.norm)
    case Appears(p) => l.right == event && l.role == p.role && l.left < |db.people| && db.people[l.left].norm == p.norm
  }

  lemma StepLinksOnlyItself(db: Db, event: nat, city: string, step: Step)
    requires Take(db, event, city, step).Some?
    ensures var d := Take(db, event, city, step).value.db;
      && (forall l | l in d.organisings && l !in db.organisings :: !step.Appears? && LinkedBy(d, event, step, l))
      && (forall l | l in d.appearances && l !in db.appearances :: step.Appears? && LinkedBy(d, event, step, l))
  {
    if step.Appears? { WithPersonGrows(db, event, city, step.person); }
  }

  ghost predicate LinkedBySome(db: Db, event: nat, steps: seq<Step>, l: Link, person: bool) {
    exists i :: 0 <= i < |steps| && (steps[i].Appears? <==> person) && LinkedBy(db, event, steps[i], l)
  }

  lemma {:induction false} StepsLinkOnlyThemselves(db: Db, event: nat, city: string, steps: seq<Step>, l: Link, person: bool)
    requires Walk(db, event, city, steps).Some? && event < |db.events|
    requires if person then l in Walk(db, event, city, steps).value.db.appearances && l !in db.appearances
             else l in Walk(db, event, city, steps).value.db.organisings && l !in db.organisings
    ensures LinkedBySome(Walk(db, event, city, steps).value.db, event, steps, l, person)
  {
    hide Take, LinkedBy;
    var n := |steps| - 1;
    var init := steps[..n];
    var before, after := Walk(db, event, city, init).value.db, Walk(db, event, city, steps).value.db;
    WalkSettles(db, event, city, init);
    StepLinksOnlyItself(before, event, city, steps[n]);
    TakeSettles(before, event, city, steps[n]);
    if if person then l in before.appearances else l in before.organisings {
      StepsLinkOnlyThemselves(db, event, city, init, l, person);
      var i :| 0 <= i < |init| && (init[i].Appears? <==> person) && LinkedBy(before, event, init[i], l);
      LinkedStays(before, after, event, steps[i], l);
    }
  }

  lemma LinkedStays(a: Db, b: Db, event: nat, step: Step, l: Link)
    requires Grew(a, b, event) && LinkedBy(a, event, step, l)
    ensures LinkedBy(b, event, step, l)
  {
    match step
    case Venue(o) => assert OrgGrew(a.orgs[l.left], b.orgs[l.left]);
    case Organiser(o) => assert OrgGrew(a.orgs[l.left], b.orgs[l.left]);
    case Appears(p) => assert PersonGrew(a.people[l.left], b.people[l.left]);
  }

  /** And nobody else is: a link that is new after a resolve is one of the event's own. */
  lemma NobodyElseIsLinked(db: Db, e: Event, l: Link)
    requires ResolveEvent(db, e).Some?
    ensures var r := ResolveEvent(db, e).value;
      && (l in r.db.appearances && l !in db.appearances ==>
            exists p :: p in e.people && LinkedBy(r.db, r.id, Appears(p), l))
      && (l in r.db.organisings && l !in db.organisings ==>
            || (e.venue.Some? && LinkedBy(r.db, r.id, Venue(e.venue.value), l))
            || exists o :: o in e.organisers && o.name != "" && LinkedBy(r.db, r.id, Organiser(o), l))
  {
    hide Steps, LinkedBy, StoreEvent;
    StoreEventStores(db, e);
    var s, r := StoreEvent(db, e).value, ResolveEvent(db, e).value;
    if l in r.db.appearances && l !in db.appearances {
      StepsLinkOnlyThemselves(s.db, s.id, e.city, Steps(e), l, true);
      var i :| 0 <= i < |Steps(e)| && Steps(e)[i].Appears? && LinkedBy(r.db, r.id, Steps(e)[i], l);
      StepsMeans(e, Steps(e)[i]);
    }
    if l in r.db.organisings && l !in db.organisings {
      StepsLinkOnlyThemselves(s.db, s.id, e.city, Steps(e), l, false);
      var i :| 0 <= i < |Steps(e)| && !Steps(e)[i].Appears? && LinkedBy(r.db, r.id, Steps(e)[i], l);
      StepsMeans(e, Steps(e)[i]);
    }
  }

  // ----- New rows

  /** The number of people among the sightings that are reported as new. */
  function NewPeople(ss: seq<Sighting>): nat {
    if ss == [] then 0
    else NewPeople(ss[..|ss| - 1]) + (if ss[|ss| - 1].step.Appears? && ss[|ss| - 1].isNew then 1 else 0)
  }

  lemma StepAddsPeople(db: Db, event: nat, city: string, step: Step)
    requires Take(db, event, city, step).Some?
    ensures var d := Take(db, event, city, step).value;
      |d.db.people| == |db.people| + (if step.Appears? && d.isNew then 1 else 0)
    ensures |Take(db, event, city, step).value.db.events| == |db.events|
  {
    if step.Appears? { WhatPersonStepDoes(db, event, city, step.person); }
  }

  /** As many people are reported as new as rows were added for people. */
  lemma {:induction false} WalkAddsPeople(db: Db, event: nat, city: string, steps: seq<Step>)
    requires Walk(db, event, city, steps).Some?
    ensures var w := Walk(db, event, city, steps).value;
      |w.db.people| == |db.people| + NewPeople(w.sightings) && |w.db.events| == |db.events|
  {
    hide Take;
    if steps != [] {
      var n := |steps| - 1;
      WalkAddsPeople(db, event, city, steps[..n]);
      var w := Walk(db, event, city, steps[..n]).value;
      StepAddsPeople(w.db, event, city, steps[n]);
      var d := Take(w.db, event, city, steps[n]).value;
      assert (w.sightings + [Sighting(steps[n], d.who, d.isNew)])[..|w.sightings|] == w.sightings;
    }
  }

  /** What is reported as new is what was added: an event row, and rows for people. */
  lemma NewMeansAdded(db: Db, e: Event)
    requires ResolveEvent(db, e).Some?
    ensures var r := ResolveEvent(db, e).value;
      && |r.db.people| == |db.people| + NewPeople(r.sightings)
      && |r.db.events| == |db.events| + (if r.isNew then 1 else 0)
  {
    hide StoreEvent, Steps;
    StoreEventStores(db, e);
    var s := StoreEvent(db, e).value;
    WalkAddsPeople(s.db, s.id, e.city, Steps(e));
  }
}
