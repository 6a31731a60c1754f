/**
  Writing extracted events into the database (internal/pipeline/resolve.go).

  Tables are sequences of rows in the order of their ids, an id being a row's place. What
  depends on Unicode, on regular expressions or on the fit rules (normalised names, the fit of an
  event, the parts of an affiliation, the domain of a URL) comes in with the extracted values
  and is arbitrary. A CHECK constraint that fails makes the transaction fail and leaves the
  tables as they were.
*/
module Resolve {
  import opened Prelude

  // ----- Rows

  datatype EventRow = EventRow(
    title: string, norm: string, start: Time, end: Option<Time>, address: string, city: string,
    format: string, kind: string, url: string, price: string, kept: bool, reason: string,
    byHand: bool, description: string, venue: Option<nat>)

  datatype OrgRow = OrgRow(name: string, norm: string, kind: string, city: string, website: string, domain: string)

  datatype PersonRow = PersonRow(name: string, norm: string, city: string, headline: string, fit: string)

  /** An appearance of a person, an organising of an organisation, or an affiliation of a person. */
  datatype Link = Link(left: nat, right: nat, role: string)

  datatype Db = Db(
    events: seq<EventRow>, orgs: seq<OrgRow>, people: seq<PersonRow>,
    appearances: set<Link>, organisings: set<Link>, affiliations: set<Link>)

  // ----- Extracted values

  datatype Org = Org(name: string, norm: string, kind: string, website: string, domain: string)

  datatype Person = Person(
    name: string, norm: string, twoWords: bool, role: string, affiliation: string,
    org: Option<Org>, affRole: string)

  datatype Event = Event(
    title: string, norm: string, start: Time, end: Option<Time>, address: string, city: string,
    format: string, kind: string, url: string, price: string, fits: bool, reason: string,
    description: string, venue: Option<Org>, organisers: seq<Org>, people: seq<Person>)

  const FORMATS := {"in_person", "online", "hybrid"}
  const KINDS := {"pitch", "talk", "panel", "meetup", "workshop", "conference", "sport", "other"}

  function OrDefault(s: string, def: string): string {
    if s == "" then def else s
  }

  // ----- Finding an event

  predicate Contains(s: string, part: string) {
    exists i :: 0 <= i <= |s| && part <= s[i..]
  }

  predicate SameTitle(a: string, b: string) {
    a == b ||
    (var x, y := if |a| > |b| then b else a, if |a| > |b| then a else b;
     |x| >= 12 && Contains(y, x))
  }

  /** The text stands in the other one, from place i on. */
  predicate StandsIn(part: string, s: string, i: int) {
    0 <= i <= |s| - |part| && forall k | 0 <= k < |part| :: s[i + k] == part[k]
  }

  lemma ContainsMeans(s: string, part: string)
    ensures Contains(s, part) <==> exists i :: StandsIn(part, s, i)
  {
    forall i | 0 <= i <= |s| ensures part <= s[i..] <==> StandsIn(part, s, i) {
      if StandsIn(part, s, i) { assert forall k | 0 <= k < |part| :: s[i..][k] == s[i + k]; }
    }
  }

  /** Titles are the same when they are equal, or when one of at least twelve letters stands in the other. */
  lemma WhenTitlesAreTheSame(a: string, b: string)
    ensures SameTitle(a, b) <==>
      a == b || (|a| >= 12 && exists i :: StandsIn(a, b, i)) || (|b| >= 12 && exists i :: StandsIn(b, a, i))
  {
    ContainsMeans(a, b);
    ContainsMeans(b, a);
    if |a| == |b| && exists i :: StandsIn(a, b, i) { assert a == b; }
    if |a| == |b| && exists i :: StandsIn(b, a, i) { assert a == b; }
  }

  function ByUrl(events: seq<EventRow>, url: string, i: nat): (k: nat)
    requires i <= |events|
    ensures i <= k <= |events| && (k < |events| ==> events[k].url == url)
    ensures forall j | i <= j < k :: events[j].url != url
    decreases |events| - i
  {
    if i == |events| || events[i].url == url then i else ByUrl(events, url, i + 1)
  }

  predicate SameSlot(r: EventRow, norm: string, start: Time) {
    r.start == start && SameTitle(r.norm, norm)
  }

  function ByTitle(events: seq<EventRow>, norm: string, start: Time, i: nat): (k: nat)
    requires i <= |events|
    ensures i <= k <= |events| && (k < |events| ==> SameSlot(events[k], norm, start))
    ensures forall j | i <= j < k :: !SameSlot(events[j], norm, start)
    decreases |events| - i
  {
    if i == |events| || SameSlot(events[i], norm, start) then i else ByTitle(events, norm, start, i + 1)
  }

  /** findEvent: by address first, then by start and title. The number of rows means not found. */
  function FindEvent(events: seq<EventRow>, e: Event): (k: nat)
    ensures k <= |events|
  {
    if e.url != "" && ByUrl(events, e.url, 0) < |events| then ByUrl(events, e.url, 0)
    else ByTitle(events, e.norm, e.start, 0)
  }

  /** No event is found exactly when none has the address or the start and title, and the address counts first. */
  lemma WhichEventIsTheSame(events: seq<EventRow>, e: Event)
    ensures var k := FindEvent(events, e);
      && (k == |events| <==>
            forall r | r in events :: !(e.url != "" && r.url == e.url) && !(r.start == e.start && SameTitle(r.norm, e.norm)))
      && (k < |events| && e.url != "" && events[k].url != e.url ==> forall r | r in events :: r.url != e.url)
      && (k < |events| && (e.url == "" || events[k].url != e.url) ==>
            events[k].start == e.start && SameTitle(events[k].norm, e.norm))
  {
  }

  function Inserted(e: Event): EventRow {
    EventRow(e.title, e.norm, e.start, e.end, e.address, e.city, OrDefault(e.format, "in_person"),
             OrDefault(e.kind, "other"), e.url, e.price, e.fits, e.reason, false, e.description, None)
  }

  /** What is known stays unless the event says something new, and a fit decided by hand always stays. */
  function Updated(r: EventRow, e: Event): EventRow {
    EventRow(
      e.title, e.norm, e.start,
      if e.end.Some? then e.end else r.end,
      if e.address == "" then r.address else e.address,
      if e.city == "" then r.city else e.city,
      if e.format == "" then r.format else e.format,
      if e.kind == "other" then r.kind else e.kind,
      if r.url == "" then e.url else r.url,
      if e.price == "" then r.price else e.price,
      if r.byHand then r.kept else e.fits,
      if r.byHand then r.reason else e.reason,
      r.byHand,
      if |e.description| > |r.description| then e.description else r.description,
      r.venue)
  }

  /** The CHECK constraints of the events table. */
  predicate RowAllowed(r: EventRow) {
    && (r.end.Some? ==> r.end.value >= r.start)
    && r.format in FORMATS && r.kind in KINDS
  }

  datatype Stored = Stored(db: Db, id: nat, isNew: bool)

  function StoreEvent(db: Db, e: Event): (r: Option<Stored>)
    ensures r.Some? ==> r.value.id < |r.value.db.events|
  {
    var k := FindEvent(db.events, e);
    var row := if k == |db.events| then Inserted(e) else Updated(db.events[k], e);
    if !RowAllowed(row) then None
    else if k == |db.events| then Some(Stored(db.(events := db.events + [row]), k, true))
    else Some(Stored(db.(events := db.events[k := row]), k, false))
  }

  // ----- Organisations

  function OrgAt(orgs: seq<OrgRow>, norm: string, i: nat): (k: nat)
    requires i <= |orgs|
    ensures i <= k <= |orgs| && (k < |orgs| ==> orgs[k].norm == norm)
    ensures forall j | i <= j < k :: orgs[j].norm != norm
    decreases |orgs| - i
  {
    if i == |orgs| || orgs[i].norm == norm then i else OrgAt(orgs, norm, i + 1)
  }

  function Merged(r: OrgRow, o: Org, city: string): OrgRow {
    r.(website := if r.website == "" then o.website else r.website,
       domain := if r.domain == "" then o.domain else r.domain,
       city := if r.city == "" then city else r.city,
       kind := if r.kind == "other" then o.kind else r.kind)
  }

  datatype Upserted = Upserted(orgs: seq<OrgRow>, id: nat, isNew: bool)

  /** upsertOrganisation. A name that folds to nothing is an error. */
  function Upsert(orgs: seq<OrgRow>, o: Org, city: string): Option<Upserted> {
    if o.norm == "" then None
    else
      var k := OrgAt(orgs, o.norm, 0);
      if k < |orgs| then Some(Upserted(orgs[k := Merged(orgs[k], o, city)], k, false))
      else Some(Upserted(orgs + [OrgRow(o.name, o.norm, o.kind, city, o.website, o.domain)], k, true))
  }

  // ----- People

  predicate AtEvent(db: Db, i: nat, event: nat) {
    exists l :: l in db.appearances && l.left == i && l.right == event
  }

  /** The first person of that name who appears at the event. */
  function PersonAt(db: Db, event: nat, norm: string, i: nat): (k: nat)
    requires i <= |db.people|
    ensures i <= k <= |db.people| && (k < |db.people| ==> db.people[k].norm == norm && AtEvent(db, k, event))
    ensures forall j | i <= j < k :: !(db.people[j].norm == norm && AtEvent(db, j, event))
    decreases |db.people| - i
  {
    if i == |db.people| || (db.people[i].norm == norm && AtEvent(db, i, event)) then i
    else PersonAt(db, event, norm, i + 1)
  }

  predicate HasOrg(db: Db, i: nat) {
    exists l :: l in db.affiliations && l.left == i
  }

  /** Person i is linked to an organisation of that name. */
  predicate Shares(db: Db, i: nat, orgNorm: string) {
    orgNorm != "" && exists l :: l in db.affiliations && l.left == i && l.right < |db.orgs| && db.orgs[l.right].norm == orgNorm
  }

  function OrgNorm(p: Person): string {
    if p.org.Some? then p.org.value.norm else ""
  }

  /** The scan over people of the same name: one who shares the organisation, or else the first who contradicts nothing. */
  function Candidate(db: Db, p: Person, i: nat, fallback: Option<nat>): (k: Option<nat>)
    requires i <= |db.people| && (fallback.Some? ==> fallback.value < |db.people|)
    ensures k.Some? ==> k.value < |db.people|
    decreases |db.people| - i
  {
    if i == |db.people| then fallback
    else if db.people[i].norm != p.norm then Candidate(db, p, i + 1, fallback)
    else if Shares(db, i, OrgNorm(p)) then Some(i)
    else if fallback.None? && (OrgNorm(p) == "" || !HasOrg(db, i)) then Candidate(db, p, i + 1, Some(i))
    else Candidate(db, p, i + 1, fallback)
  }

  /** Names of one word match within the event only. */
  function FindPerson(db: Db, event: nat, p: Person): (k: Option<nat>)
    ensures k.Some? ==> k.value < |db.people|
  {
    var at := PersonAt(db, event, p.norm, 0);
    if at < |db.people| then Some(at)
    else if p.twoWords then Candidate(db, p, 0, None)
    else None
  }

  /** Neither side names a different organisation. */
  predicate Agrees(db: Db, i: nat, p: Person) {
    OrgNorm(p) == "" || !HasOrg(db, i)
  }

  /** What these words mean for the tables and for the organisation that the person was announced with, if any. */
  lemma WhatTheWordsMean(db: Db, event: nat, i: nat, p: Person)
    ensures AtEvent(db, i, event) <==> exists role :: Link(i, event, role) in db.appearances
    ensures Shares(db, i, OrgNorm(p)) <==>
      p.org.Some? && p.org.value.norm != "" &&
      exists k, role :: 0 <= k < |db.orgs| && db.orgs[k].norm == p.org.value.norm && Link(i, k, role) in db.affiliations
    ensures Agrees(db, i, p) <==>
      p.org.None? || p.org.value.norm == "" || forall k, role :: Link(i, k, role) !in db.affiliations
  {
    if AtEvent(db, i, event) {
      var l :| l in db.appearances && l.left == i && l.right == event;
      assert Link(i, event, l.role) in db.appearances;
    }
    if Shares(db, i, OrgNorm(p)) {
      var l :| l in db.affiliations && l.left == i && l.right < |db.orgs| && db.orgs[l.right].norm == OrgNorm(p);
      assert Link(i, l.right, l.role) in db.affiliations;
    }
    if HasOrg(db, i) {
      var l :| l in db.affiliations && l.left == i;
      assert Link(i, l.right, l.role) in db.affiliations;
    }
  }

  predicate SamePerson(db: Db, event: nat, p: Person, i: nat) {
    AtEvent(db, i, event) || (p.twoWords && (Shares(db, i, OrgNorm(p)) || Agrees(db, i, p)))
  }

  lemma {:induction false} CandidateMeans(db: Db, p: Person, i: nat, fallback: Option<nat>)
    requires i <= |db.people| && (fallback.Some? ==> fallback.value < |db.people|)
    ensures var k := Candidate(db, p, i, fallback);
      && (k.None? ==> fallback.None? && forall j | i <= j < |db.people| && db.people[j].norm == p.norm ::
            !Shares(db, j, OrgNorm(p)) && !Agrees(db, j, p))
      && (k.Some? && k != fallback ==>
            db.people[k.value].norm == p.norm && (Shares(db, k.value, OrgNorm(p)) || Agrees(db, k.value, p)))
      && (k.Some? && !Shares(db, k.value, OrgNorm(p)) ==>
            forall j | i <= j < |db.people| && db.people[j].norm == p.norm :: !Shares(db, j, OrgNorm(p)))
      && (k.Some? && Shares(db, k.value, OrgNorm(p)) && k != fallback ==>
            forall j | i <= j < k.value && db.people[j].norm == p.norm :: !Shares(db, j, OrgNorm(p)))
      && (k.Some? && !Shares(db, k.value, OrgNorm(p)) && fallback.None? ==>
            forall j | i <= j < k.value && db.people[j].norm == p.norm :: !Agrees(db, j, p))
      && (fallback.Some? ==> k == fallback || (k.Some? && Shares(db, k.value, OrgNorm(p))))
    decreases |db.people| - i
  {
    if i < |db.people| {
      if db.people[i].norm != p.norm {
        CandidateMeans(db, p, i + 1, fallback);
      } else if !Shares(db, i, OrgNorm(p)) {
        CandidateMeans(db, p, i + 1, if fallback.None? && Agrees(db, i, p) then Some(i) else fallback);
      }
    }
  }

  /**
    The same name is the same person exactly when they appear at the same event, share an
    organisation, or neither side names a different one, and of these the first counts most, and the
    oldest of several. A shared organisation wins over none.
    A name of one word is the same person at the same event only.
  */
  lemma WhoIsTheSamePerson(db: Db, event: nat, p: Person)
    ensures var k := FindPerson(db, event, p);
      && (k.Some? <==> exists j :: 0 <= j < |db.people| && db.people[j].norm == p.norm && SamePerson(db, event, p, j))
      && (k.Some? ==> db.people[k.value].norm == p.norm)
      && (k.Some? && !AtEvent(db, k.value, event) ==>
            && (forall j | 0 <= j < |db.people| && db.people[j].norm == p.norm :: !AtEvent(db, j, event))
            && p.twoWords && (Shares(db, k.value, OrgNorm(p)) || Agrees(db, k.value, p))
            && (!Shares(db, k.value, OrgNorm(p)) ==>
                  && (forall j | 0 <= j < |db.people| && db.people[j].norm == p.norm :: !Shares(db, j, OrgNorm(p)))
                  && (forall j | 0 <= j < k.value && db.people[j].norm == p.norm :: !Agrees(db, j, p)))
            && (Shares(db, k.value, OrgNorm(p)) ==>
                  forall j | 0 <= j < k.value && db.people[j].norm == p.norm :: !Shares(db, j, OrgNorm(p))))
  {
    CandidateMeans(db, p, 0, None);
  }

  function Headlined(r: PersonRow, affiliation: string): PersonRow {
    if affiliation != "" && r.headline == "" then r.(headline := affiliation) else r
  }

  function Founded(r: PersonRow, affRole: string): PersonRow {
    if affRole == "founder" && r.fit == "other" then r.(fit := "founder") else r
  }

  // ----- One event is an event row and a list of such steps

  datatype Step = Venue(org: Org) | Organiser(org: Org) | Appears(person: Person)

  datatype Done = Done(db: Db, who: nat, isNew: bool)

  function WithVenue(events: seq<EventRow>, event: nat, org: nat): seq<EventRow> {
    if event < |events| && events[event].venue.None? then events[event := events[event].(venue := Some(org))] else events
  }

  /** The row of the person, found or new, and the appearance. */
  function WithPerson(db: Db, event: nat, city: string, p: Person): Done {
    var found := FindPerson(db, event, p);
    var k := if found.Some? then found.value else |db.people|;
    var people :=
      if found.Some? then db.people[k := Headlined(db.people[k], p.affiliation)]
      else db.people + [PersonRow(p.name, p.norm, city, p.affiliation, "other")];
    Done(db.(people := people, appearances := db.appearances + {Link(k, event, p.role)}), k, found.None?)
  }

  /** The organisation of the person's affiliation, if it names one. */
  function WithAffiliation(db: Db, k: nat, p: Person): Option<Db>
    requires k < |db.people|
  {
    if p.org.None? then Some(db)
    else
      var u := Upsert(db.orgs, p.org.value, "");
      if u.None? then None
      else Some(db.(orgs := u.value.orgs,
                    affiliations := db.affiliations + {Link(k, u.value.id, p.affRole)},
                    people := db.people[k := Founded(db.people[k], p.affRole)]))
  }

  function Take(db: Db, event: nat, city: string, step: Step): Option<Done> {
    match step
    case Venue(o) =>
      var u := Upsert(db.orgs, o, city);
      if u.None? then None
      else Some(Done(db.(orgs := u.value.orgs, events := WithVenue(db.events, event, u.value.id),
                         organisings := db.organisings + {Link(u.value.id, event, "venue")}), u.value.id, u.value.isNew))
    case Organiser(o) =>
      var u := Upsert(db.orgs, o, city);
      if u.None? then None
      else Some(Done(db.(orgs := u.value.orgs, organisings := db.organisings + {Link(u.value.id, event, "organiser")}),
                     u.value.id, u.value.isNew))
    case Appears(p) =>
      var d := WithPerson(db, event, city, p);
      var a := WithAffiliation(d.db, d.who, p);
      if a.None? then None else Some(Done(a.value, d.who, d.isNew))
  }

  /** What was found and created on the way, in order. */
  datatype Sighting = Sighting(step: Step, who: nat, isNew: bool)

  datatype Walked = Walked(db: Db, sightings: seq<Sighting>)

  function Walk(db: Db, event: nat, city: string, steps: seq<Step>): Option<Walked> {
    if steps == [] then Some(Walked(db, []))
    else
      var n := |steps| - 1;
      var w := Walk(db, event, city, steps[..n]);
      if w.None? then None
      else
        var d := Take(w.value.db, event, city, steps[n]);
        if d.None? then None
        else Some(Walked(d.value.db, w.value.sightings + [Sighting(steps[n], d.value.who, d.value.isNew)]))
  }

  /** Organisers without a name are skipped. */
  function Organisers(os: seq<Org>): seq<Step> {
    if os == [] then []
    else
      var rest := Organisers(os[..|os| - 1]);
      if os[|os| - 1].name == "" then rest else rest + [Organiser(os[|os| - 1])]
  }

  function People(ps: seq<Person>): seq<Step> {
    seq(|ps|, i requires 0 <= i < |ps| => Appears(ps[i]))
  }

  function Steps(e: Event): seq<Step> {
    (if e.venue.Some? then [Venue(e.venue.value)] else []) + Organisers(e.organisers) + People(e.people)
  }

  datatype Resolved = Resolved(db: Db, id: nat, isNew: bool, kept: bool, sightings: seq<Sighting>)

  /** resolveEvent, in its transaction. */
  function ResolveEvent(db: Db, e: Event): Option<Resolved> {
    var s := StoreEvent(db, e);
    if s.None? then None
    else
      var w := Walk(s.value.db, s.value.id, e.city, Steps(e));
      if w.None? then None
      else Some(Resolved(w.value.db, s.value.id, s.value.isNew,
                         if s.value.isNew then e.fits else s.value.db.events[s.value.id].kept, w.value.sightings))
  }
}
