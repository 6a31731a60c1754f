/**
  Resolving the same event again changes nothing (internal/pipeline/resolve.go).

  Each step of a resolve leaves the tables settled for itself: taking it again changes nothing
  and finds the same row. Later steps of the same event keep it settled, because rows only gain
  what they did not have.
*/
module ResolveAgain {
  import opened Prelude
  import opened Resolve

  // ----- How rows may change within one resolve

  predicate OrgGrew(a: OrgRow, b: OrgRow) {
    && b.name == a.name && b.norm == a.norm
    && (a.website != "" ==> b.website == a.website) && (a.domain != "" ==> b.domain == a.domain)
    && (a.city != "" ==> b.city == a.city) && (a.kind != "other" ==> b.kind == a.kind)
  }

  predicate OrgsGrew(a: seq<OrgRow>, b: seq<OrgRow>) {
    |a| <= |b| && forall i | 0 <= i < |a| :: OrgGrew(a[i], b[i])
  }

  predicate PersonGrew(a: PersonRow, b: PersonRow) {
    && b.name == a.name && b.norm == a.norm
    && (a.headline != "" ==> b.headline == a.headline) && (a.fit != "other" ==> b.fit == a.fit)
  }

  predicate PeopleGrew(a: seq<PersonRow>, b: seq<PersonRow>) {
    |a| <= |b| && forall i | 0 <= i < |a| :: PersonGrew(a[i], b[i])
  }

  /** Whoever was found at the event by name is still the one who is found. */
  ghost predicate FindsSame(a: Db, b: Db, event: nat) {
    forall norm {:trigger PersonAt(a, event, norm, 0)} | PersonAt(a, event, norm, 0) < |a.people| ::
      PersonAt(b, event, norm, 0) == PersonAt(a, event, norm, 0)
  }

  predicate EventGrew(a: EventRow, b: EventRow) {
    b == a.(venue := b.venue) && (a.venue.Some? ==> b.venue == a.venue)
  }

  predicate EventsGrew(a: seq<EventRow>, b: seq<EventRow>) {
    |a| == |b| && forall i | 0 <= i < |a| :: EventGrew(a[i], b[i])
  }

  ghost predicate Grew(a: Db, b: Db, event: nat) {
    && OrgsGrew(a.orgs, b.orgs) && PeopleGrew(a.people, b.people) && EventsGrew(a.events, b.events)
    && a.appearances <= b.appearances && a.organisings <= b.organisings && a.affiliations <= b.affiliations
    && FindsSame(a, b, event)
  }

  // ----- Settled for a step

  predicate OrgSettled(orgs: seq<OrgRow>, o: Org, city: string, k: nat) {
    o.norm != "" && k < |orgs| && OrgAt(orgs, o.norm, 0) == k && Merged(orgs[k], o, city) == orgs[k]
  }

  ghost predicate PersonSettled(db: Db, event: nat, p: Person, k: nat) {
    && k < |db.people| && PersonAt(db, event, p.norm, 0) == k && Link(k, event, p.role) in db.appearances
    && Headlined(db.people[k], p.affiliation) == db.people[k]
    && (p.org.Some? ==>
          && OrgSettled(db.orgs, p.org.value, "", OrgAt(db.orgs, p.org.value.norm, 0))
          && Link(k, OrgAt(db.orgs, p.org.value.norm, 0), p.affRole) in db.affiliations
          && Founded(db.people[k], p.affRole) == db.people[k])
  }

  ghost predicate Settled(db: Db, event: nat, city: string, step: Step, who: nat) {
    match step
    case Venue(o) =>
      && OrgSettled(db.orgs, o, city, who) && Link(who, event, "venue") in db.organisings
      && event < |db.events| && db.events[event].venue.Some?
    case Organiser(o) => OrgSettled(db.orgs, o, city, who) && Link(who, event, "organiser") in db.organisings
    case Appears(p) => PersonSettled(db, event, p, who)
  }

  // ----- Organisations

  lemma OrgStaysSettled(a: seq<OrgRow>, b: seq<OrgRow>, o: Org, city: string, k: nat)
    requires OrgsGrew(a, b) && OrgSettled(a, o, city, k)
    ensures OrgSettled(b, o, city, k)
  {
  }

  /** After an upsert the organisation is settled, and every other only gained. */
  lemma UpsertSettles(orgs: seq<OrgRow>, o: Org, city: string)
    requires Upsert(orgs, o, city).Some?
    ensures OrgsGrew(orgs, Upsert(orgs, o, city).value.orgs)
    ensures OrgSettled(Upsert(orgs, o, city).value.orgs, o, city, Upsert(orgs, o, city).value.id)
  {
    var u := Upsert(orgs, o, city).value;
    assert forall j | 0 <= j < u.id :: u.orgs[j].norm != o.norm;
    OrgAtIs(u.orgs, o.norm, u.id, 0);
  }

  lemma OrgAtIs(orgs: seq<OrgRow>, norm: string, k: nat, i: nat)
    requires i <= k < |orgs| && orgs[k].norm == norm && forall j | 0 <= j < k :: orgs[j].norm != norm
    ensures OrgAt(orgs, norm, i) == k
    decreases k - i
  {
  }

  /** Upserting a settled organisation changes nothing. */
  lemma SettledUpsert(orgs: seq<OrgRow>, o: Org, city: string, k: nat)
    requires OrgSettled(orgs, o, city, k)
    ensures Upsert(orgs, o, city) == Some(Upserted(orgs, k, false))
  {
    assert orgs[k := orgs[k]] == orgs;
  }

  // ----- People

  lemma PersonAtIs(db: Db, event: nat, norm: string, k: nat, i: nat)
    requires i <= k < |db.people| && db.people[k].norm == norm && AtEvent(db, k, event)
    requires forall j | 0 <= j < k :: !(db.people[j].norm == norm && AtEvent(db, j, event))
    ensures PersonAt(db, event, norm, i) == k
    decreases k - i
  {
  }

  /** The person search looks at names and appearances only. */
  lemma SamePeopleSameFind(a: Db, b: Db, event: nat, norm: string, i: nat)
    requires PeopleGrew(a.people, b.people) && |a.people| == |b.people| && a.appearances == b.appearances && i <= |a.people|
    ensures PersonAt(b, event, norm, i) == PersonAt(a, event, norm, i)
    decreases |a.people| - i
  {
  }

  lemma WithPersonGrows(db: Db, event: nat, city: string, p: Person)
    ensures var d := WithPerson(db, event, city, p);
      && PeopleGrew(db.people, d.db.people) && db.appearances <= d.db.appearances
      && d.who < |d.db.people| && d.db.people[d.who].norm == p.norm && Link(d.who, event, p.role) in d.db.appearances
      && d.db.orgs == db.orgs && d.db.events == db.events && d.db.organisings == db.organisings
      && d.db.affiliations == db.affiliations
      && Headlined(d.db.people[d.who], p.affiliation) == d.db.people[d.who]
  {
    WhoIsTheSamePerson(db, event, p);
  }

  /** Adding the appearance of the person that was found keeps every search at the event, and settles this one. */
  lemma WithPersonFinds(db: Db, event: nat, city: string, p: Person)
    ensures FindsSame(db, WithPerson(db, event, city, p).db, event)
    ensures PersonAt(WithPerson(db, event, city, p).db, event, p.norm, 0) == WithPerson(db, event, city, p).who
  {
    var d := WithPerson(db, event, city, p);
    WithPersonGrows(db, event, city, p);
    forall norm | PersonAt(db, event, norm, 0) < |db.people| ensures PersonAt(d.db, event, norm, 0) == PersonAt(db, event, norm, 0) {
      FindStays(db, event, city, p, norm);
    }
    if PersonAt(db, event, p.norm, 0) == |db.people| {
      FirstAtEvent(db, event, city, p);
    }
  }

  lemma AtEventAfter(db: Db, event: nat, city: string, p: Person, i: nat)
    ensures AtEvent(WithPerson(db, event, city, p).db, i, event) <==>
      AtEvent(db, i, event) || i == WithPerson(db, event, city, p).who
  {
  }

  lemma FindStays(db: Db, event: nat, city: string, p: Person, norm: string)
    requires PersonAt(db, event, norm, 0) < |db.people|
    ensures PersonAt(WithPerson(db, event, city, p).db, event, norm, 0) == PersonAt(db, event, norm, 0)
  {
    var d := WithPerson(db, event, city, p);
    WithPersonGrows(db, event, city, p);
    var k := PersonAt(db, event, norm, 0);
    assert PersonGrew(db.people[k], d.db.people[k]);
    AtEventAfter(db, event, city, p, k);
    forall j | 0 <= j < k ensures !(d.db.people[j].norm == norm && AtEvent(d.db, j, event)) {
      assert PersonGrew(db.people[j], d.db.people[j]);
      AtEventAfter(db, event, city, p, j);
    }
    PersonAtIs(d.db, event, norm, k, 0);
  }

  lemma FirstAtEvent(db: Db, event: nat, city: string, p: Person)
    requires PersonAt(db, event, p.norm, 0) == |db.people|
    ensures PersonAt(WithPerson(db, event, city, p).db, event, p.norm, 0) == WithPerson(db, event, city, p).who
  {
    var d := WithPerson(db, event, city, p);
    WithPersonGrows(db, event, city, p);
    AtEventAfter(db, event, city, p, d.who);
    forall j | 0 <= j < d.who ensures !(d.db.people[j].norm == p.norm && AtEvent(d.db, j, event)) {
      AtEventAfter(db, event, city, p, j);
      assert PersonGrew(db.people[j], d.db.people[j]);
    }
    PersonAtIs(d.db, event, p.norm, d.who, 0);
  }

  /** The affiliation step keeps the searches and settles the organisation, the link and the founder mark. */
  lemma WithAffiliationGrows(db: Db, k: nat, event: nat, p: Person)
    requires k < |db.people| && WithAffiliation(db, k, p).Some?
    ensures Grew(db, WithAffiliation(db, k, p).value, event)
    ensures var b := WithAffiliation(db, k, p).value;
      && |b.people| == |db.people| && b.appearances == db.appearances
      && b.people[k].headline == db.people[k].headline
      && (p.org.Some? ==>
            && OrgSettled(b.orgs, p.org.value, "", OrgAt(b.orgs, p.org.value.norm, 0))
            && Link(k, OrgAt(b.orgs, p.org.value.norm, 0), p.affRole) in b.affiliations
            && Founded(b.people[k], p.affRole) == b.people[k])
  {
    var b := WithAffiliation(db, k, p).value;
    if p.org.Some? {
      UpsertSettles(db.orgs, p.org.value, "");
    }
    forall norm | PersonAt(db, event, norm, 0) < |db.people| ensures PersonAt(b, event, norm, 0) == PersonAt(db, event, norm, 0) {
      SamePeopleSameFind(db, b, event, norm, 0);
    }
  }

  // ----- Steps

  lemma GrewTwice(a: Db, b: Db, c: Db, event: nat)
    requires Grew(a, b, event) && Grew(b, c, event)
    ensures Grew(a, c, event)
  {
  }

  lemma SameTablesFindSame(a: Db, b: Db, event: nat)
    requires a.people == b.people && a.appearances == b.appearances
    ensures FindsSame(a, b, event)
  {
  }

  lemma PersonStepSettles(db: Db, event: nat, city: string, p: Person)
    requires Take(db, event, city, Appears(p)).Some?
    ensures var d := Take(db, event, city, Appears(p)).value;
      Grew(db, d.db, event) && PersonSettled(d.db, event, p, d.who)
  {
    var d := WithPerson(db, event, city, p);
    WithPersonGrows(db, event, city, p);
    WithPersonFinds(db, event, city, p);
    WithAffiliationGrows(d.db, d.who, event, p);
    GrewTwice(db, d.db, WithAffiliation(d.db, d.who, p).value, event);
  }

  /** A step settles itself, and takes nothing away from any row. */
  lemma TakeSettles(db: Db, event: nat, city: string, step: Step)
    requires Take(db, event, city, step).Some? && event < |db.events|
    ensures var d := Take(db, event, city, step).value;
      Grew(db, d.db, event) && Settled(d.db, event, city, step, d.who)
  {
    match step
    case Venue(o) => UpsertSettles(db.orgs, o, city); SameTablesFindSame(db, Take(db, event, city, step).value.db, event);
    case Organiser(o) => UpsertSettles(db.orgs, o, city); SameTablesFindSame(db, Take(db, event, city, step).value.db, event);
    case Appears(p) => PersonStepSettles(db, event, city, p);
  }

  lemma StaysSettled(a: Db, b: Db, event: nat, city: string, step: Step, who: nat)
    requires Grew(a, b, event) && Settled(a, event, city, step, who)
    ensures Settled(b, event, city, step, who)
  {
    match step
    case Venue(o) => OrgStaysSettled(a.orgs, b.orgs, o, city, who); assert EventGrew(a.events[event], b.events[event]);
    case Organiser(o) => OrgStaysSettled(a.orgs, b.orgs, o, city, who);
    case Appears(p) =>
      assert PersonGrew(a.people[who], b.people[who]);
      if p.org.Some? {
        OrgStaysSettled(a.orgs, b.orgs, p.org.value, "", OrgAt(a.orgs, p.org.value.norm, 0));
      }
  }

  lemma SettledPersonStep(db: Db, event: nat, city: string, p: Person, k: nat)
    requires PersonSettled(db, event, p, k)
    ensures Take(db, event, city, Appears(p)) == Some(Done(db, k, false))
  {
    assert FindPerson(db, event, p) == Some(k);
    assert db.people[k := db.people[k]] == db.people;
    assert db.appearances + {Link(k, event, p.role)} == db.appearances;
    assert WithPerson(db, event, city, p) == Done(db, k, false);
    if p.org.Some? {
      var o := OrgAt(db.orgs, p.org.value.norm, 0);
      SettledUpsert(db.orgs, p.org.value, "", o);
      assert db.affiliations + {Link(k, o, p.affRole)} == db.affiliations;
    }
  }

  /** Taking a settled step again changes nothing and finds the same row. */
  lemma SettledTake(db: Db, event: nat, city: string, step: Step, who: nat)
    requires Settled(db, event, city, step, who)
    ensures Take(db, event, city, step) == Some(Done(db, who, false))
  {
    match step
    case Venue(o) =>
      SettledUpsert(db.orgs, o, city, who);
      assert db.organisings + {Link(who, event, "venue")} == db.organisings;
    case Organiser(o) =>
      SettledUpsert(db.orgs, o, city, who);
      assert db.organisings + {Link(who, event, "organiser")} == db.organisings;
    case Appears(p) => SettledPersonStep(db, event, city, p, who);
  }

  // ----- All steps of an event

  ghost predicate AllSettled(db: Db, event: nat, city: string, sightings: seq<Sighting>) {
    forall i | 0 <= i < |sightings| :: Settled(db, event, city, sightings[i].step, sightings[i].who)
  }

  lemma {:induction false} WalkSettles(db: Db, event: nat, city: string, steps: seq<Step>)
    requires Walk(db, event, city, steps).Some? && event < |db.events|
    ensures var w := Walk(db, event, city, steps).value;
      && |w.sightings| == |steps| && (forall i | 0 <= i < |steps| :: w.sightings[i].step == steps[i])
      && AllSettled(w.db, event, city, w.sightings) && EventsGrew(db.events, w.db.events)
  {
    hide Take, Settled, FindsSame;
    if steps != [] {
      var n := |steps| - 1;
      WalkSettles(db, event, city, steps[..n]);
      var before := Walk(db, event, city, steps[..n]).value;
      var w := Walk(db, event, city, steps).value;
      TakeSettles(before.db, event, city, steps[n]);
      AllStaySettled(before.db, w.db, event, city, before.sightings);
      EventsGrewTwice(db.events, before.db.events, w.db.events);
    }
  }

  lemma AllStaySettled(a: Db, b: Db, event: nat, city: string, ss: seq<Sighting>)
    requires Grew(a, b, event) && AllSettled(a, event, city, ss)
    ensures AllSettled(b, event, city, ss)
  {
    forall i | 0 <= i < |ss| ensures Settled(b, event, city, ss[i].step, ss[i].who) {
      StaysSettled(a, b, event, city, ss[i].step, ss[i].who);
    }
  }

  lemma EventsGrewTwice(a: seq<EventRow>, b: seq<EventRow>, c: seq<EventRow>)
    requires EventsGrew(a, b) && EventsGrew(b, c)
    ensures EventsGrew(a, c)
  {
  }

  /** The same sightings with nothing new among them. */
  ghost function Known(ss: seq<Sighting>): (r: seq<Sighting>)
    ensures |r| == |ss| && forall i | 0 <= i < |ss| :: r[i] == Sighting(ss[i].step, ss[i].who, false)
  {
    seq(|ss|, i requires 0 <= i < |ss| => Sighting(ss[i].step, ss[i].who, false))
  }

  lemma {:induction false} WalkAgain(db: Db, event: nat, city: string, steps: seq<Step>, ss: seq<Sighting>)
    requires |ss| == |steps| && (forall i | 0 <= i < |steps| :: ss[i].step == steps[i]) && AllSettled(db, event, city, ss)
    ensures Walk(db, event, city, steps) == Some(Walked(db, Known(ss)))
  {
    hide Take, Settled;
    if steps != [] {
      var n := |steps| - 1;
      WalkAgain(db, event, city, steps[..n], ss[..n]);
      SettledTake(db, event, city, steps[n], ss[n].who);
      assert Known(ss[..n]) + [Sighting(steps[n], ss[n].who, false)] == Known(ss);
    }
  }

  // ----- The event row

  lemma ByUrlIs(events: seq<EventRow>, url: string, k: nat, i: nat)
    requires i <= k <= |events| && (k < |events| ==> events[k].url == url)
    requires forall j | 0 <= j < k :: events[j].url != url
    ensures ByUrl(events, url, i) == k
    decreases k - i
  {
  }

  lemma ByTitleIs(events: seq<EventRow>, norm: string, start: Time, k: nat, i: nat)
    requires i <= k < |events| && SameSlot(events[k], norm, start)
    requires forall j | 0 <= j < k :: !SameSlot(events[j], norm, start)
    ensures ByTitle(events, norm, start, i) == k
    decreases k - i
  {
  }

  /** The event that was just stored is the one that is found, also after its steps. */
  lemma StoredEventIsFound(db: Db, e: Event, events: seq<EventRow>)
    requires StoreEvent(db, e).Some? && EventsGrew(StoreEvent(db, e).value.db.events, events)
    ensures FindEvent(events, e) == StoreEvent(db, e).value.id
  {
    var s := StoreEvent(db, e).value;
    var k, stored := s.id, s.db.events;
    forall j | 0 <= j < |stored|
      ensures events[j].url == stored[j].url && events[j].norm == stored[j].norm && events[j].start == stored[j].start
      ensures j != k ==> j < |db.events| && stored[j] == db.events[j]
    {
      assert EventGrew(stored[j], events[j]);
    }
    if e.url != "" && stored[k].url == e.url {
      ByUrlIs(events, e.url, k, 0);
    } else {
      if e.url != "" { ByUrlIs(events, e.url, |events|, 0); }
      ByTitleIs(events, e.norm, e.start, k, 0);
    }
  }

  /** Storing the event again changes its row no more, unless the event has no type, which the update rejects. */
  lemma StoreAgain(db: Db, e: Event, b: Db)
    requires StoreEvent(db, e).Some? && EventsGrew(StoreEvent(db, e).value.db.events, b.events)
    ensures StoreEvent(b, e) == if e.kind == "" then None else Some(Stored(b, StoreEvent(db, e).value.id, false))
  {
    var s := StoreEvent(db, e).value;
    StoredEventIsFound(db, e, b.events);
    assert EventGrew(s.db.events[s.id], b.events[s.id]);
    if e.kind != "" {
      assert Updated(b.events[s.id], e) == b.events[s.id];
      assert b.events[s.id := b.events[s.id]] == b.events;
    }
  }

  // ----- Main result

  /**
    Right after an event was resolved, resolving it again creates and changes no event, person,
    organisation or link, finds the same rows, reports nothing new and decides the same about
    keeping it. The one exception is an event without a type: it can be inserted, because the
    insert fills in a type, but the update that follows does not, so the second resolve fails.
  */
  lemma ResolvingAgainChangesNothing(db: Db, e: Event)
    requires ResolveEvent(db, e).Some?
    ensures var r := ResolveEvent(db, e).value;
      ResolveEvent(r.db, e) == if e.kind == "" then None else Some(Resolved(r.db, r.id, false, r.kept, Known(r.sightings)))
  {
    var r := ResolveEvent(db, e).value;
    var s := StoreEvent(db, e).value;
    WalkSettles(s.db, s.id, e.city, Steps(e));
    StoreAgain(db, e, r.db);
    assert EventGrew(s.db.events[s.id], r.db.events[s.id]);
    if e.kind != "" {
      WalkAgain(r.db, r.id, e.city, Steps(e), r.sightings);
    }
  }

  /** What Extract makes of an event: a type that is missing is guessed, and a guess is always a type. */
  function Typed(e: Event, guess: string): (t: Event)
    ensures e.kind != "" ==> t == e
    ensures e.kind == "" ==> t.kind == guess
  {
    e.(kind := if e.kind == "" then guess else e.kind)
  }

  /** So the exception does not occur for the events that a check extracts: for those there is none. */
  lemma ExtractedEventResolvesAgain(db: Db, e: Event, guess: string)
    requires guess in KINDS && ResolveEvent(db, Typed(e, guess)).Some?
    ensures var r := ResolveEvent(db, Typed(e, guess)).value;
      ResolveEvent(r.db, Typed(e, guess)) == Some(Resolved(r.db, r.id, false, r.kept, Known(r.sightings)))
  {
    hide ResolveEvent;
    ResolvingAgainChangesNothing(db, Typed(e, guess));
  }

  /** An event without a type that resolves once and then never again. */
  lemma EventWithoutTypeFailsTheSecondTime() returns (db: Db, e: Event)
    ensures ResolveEvent(db, e).Some? && ResolveEvent(db, e).value.isNew
    ensures ResolveEvent(ResolveEvent(db, e).value.db, e).None?
  {
    db := Db([], [], [], {}, {}, {});
    e := Event("Pitch Night", "pitch night", 0, None, "", "", "online", "", "", "", true, "", "", None, [], []);
    assert Steps(e) == [];
    assert ResolveEvent(db, e).Some?;
    ResolvingAgainChangesNothing(db, e);
  }
}
