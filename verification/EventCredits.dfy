/**
 What the site reads from event rows, under the stamps that name it: the records of the
 published events, and the speaker credits that profiles take from them.
 */
module EventCredits {
  import opened CatalogueStore
  import opened Stamps

  // The event records are kept under the stamps of every table they are read from. That is exact
  // while new and changed rows of those tables take new marks. The profiles are kept under the stamp
  // of the event rows alone. That is exact while the credits of an event that stays change only
  // together with a write of its row. The program keeps both rules; without them equal stamps need
  // not mean equal answers.

  // A speaker of an event: the link with its place, and the host it leads to.
  datatype Speaker = Speaker(link: Id, position: nat, host: Host)

  datatype Credit = Credit(speakers: set<Speaker>, source: string)

  const NOBODY := Host("", "")

  function HostOf(r: Relations, id: Id): Host {
    if id in r.hosts then r.hosts[id].value else NOBODY
  }

  function CreditOf(r: Relations, id: Id): Credit {
    Credit(set l | l in r.links && r.links[l].event == id :: Speaker(l, r.links[l].position, HostOf(r, r.links[l].host)),
           if id in r.sources then r.sources[id].value else "")
  }

  /** Every event row with its credit: what the profiles are derived from. */
  function Credited(s: Store): map<Id, (Cell<Row>, Credit)> {
    map id | id in s.events :: (s.events[id], CreditOf(s.related, id))
  }

  datatype EventRecord = EventRecord(row: Cell<Row>, credit: Credit, registered: nat)

  function Registered(r: Relations, id: Id): set<Id> {
    set x | x in r.registrations && r.registrations[x].value == Registration(id, true)
  }

  /** Every event row with its credit and its number of registrations. */
  function EventRecords(s: Store): map<Id, EventRecord> {
    map id | id in s.events :: EventRecord(s.events[id], CreditOf(s.related, id), |Registered(s.related, id)|)
  }

  function CreditsIn(records: map<Id, EventRecord>): map<Id, (Cell<Row>, Credit)> {
    map id | id in records :: (records[id].row, records[id].credit)
  }

  lemma CreditsAreIn(s: Store)
    ensures CreditsIn(EventRecords(s)) == Credited(s)
  {
  }

  // ---- what a record says ----

  /** The host row, or nobody when there is none. */
  ghost predicate IsHost(r: Relations, id: Id, host: Host) {
    if id in r.hosts then r.hosts[id].value == host else host == Host("", "")
  }

  /** The credit names every link of the event with its place and host, and where the event comes from. */
  ghost predicate IsCredit(r: Relations, id: Id, credit: Credit) {
    && (forall l, position, host :: Speaker(l, position, host) in credit.speakers
          <==> l in r.links && r.links[l].event == id && r.links[l].position == position && IsHost(r, r.links[l].host, host))
    && (if id in r.sources then credit.source == r.sources[id].value else credit.source == "")
  }

  /** As many registrations of the event as count. */
  ghost predicate IsRegistered(r: Relations, id: Id, count: nat) {
    exists xs: set<Id> :: count == |xs| && forall x :: x in xs <==> x in r.registrations && r.registrations[x].value == Registration(id, true)
  }

  ghost predicate IsEventRecord(s: Store, id: Id, record: EventRecord) {
    && id in s.events && record.row == s.events[id]
    && IsCredit(s.related, id, record.credit) && IsRegistered(s.related, id, record.registered)
  }

  lemma CreditIs(r: Relations, id: Id)
    ensures IsCredit(r, id, CreditOf(r, id))
  {
  }

  /** Every event has its record, with its speakers, its source and its number of registrations. */
  lemma RecordsAre(s: Store)
    ensures EventRecords(s).Keys == s.events.Keys
    ensures forall id :: id in s.events ==> IsEventRecord(s, id, EventRecords(s)[id])
  {
    forall id | id in s.events ensures IsEventRecord(s, id, EventRecords(s)[id]) {
      CreditIs(s.related, id);
      var xs := Registered(s.related, id);
      assert forall x :: x in xs <==> x in s.related.registrations && s.related.registrations[x].value == Registration(id, true);
    }
  }

  // ---- stamps ----

  ghost function EventStamp(s: Store): Stamp {
    StampOf(s.events)
  }

  // The stamps of the five tables event records are read from.
  datatype TableStamps = TableStamps(events: Stamp, hosts: Stamp, links: Stamp, registrations: Stamp, sources: Stamp)

  ghost function TableStampsOf(s: Store): TableStamps {
    TableStamps(StampOf(s.events), StampOf(s.related.hosts), StampOf(LinkCells(s.related)),
                StampOf(s.related.registrations), StampOf(s.related.sources))
  }

  method ReadTableStamps(s: Store) returns (stamps: TableStamps)
    ensures stamps == TableStampsOf(s)
  {
    var events := Aggregate(s.events);
    var hosts := Aggregate(s.related.hosts);
    var links := Aggregate(LinkCells(s.related));
    var registrations := Aggregate(s.related.registrations);
    var sources := Aggregate(s.related.sources);
    stamps := TableStamps(events, hosts, links, registrations, sources);
  }

  // ---- the rules ----

  /** New and changed relations take marks above all earlier ones. */
  predicate KeepsMarks(s: Store, e: Event) {
    var t := Step(s, e);
    && MarksNew(LinkCells(s.related), LinkCells(t.related), s.ids)
    && MarksNew(s.related.hosts, t.related.hosts, s.clock)
    && MarksNew(s.related.registrations, t.related.registrations, s.clock)
    && MarksNew(s.related.sources, t.related.sources, s.clock)
  }

  predicate AllMarked(s: Store, events: seq<Event>)
    decreases |events|
  {
    events == [] || (KeepsMarks(s, events[0]) && AllMarked(Step(s, events[0]), events[1..]))
  }

  /** `t` can be reached from `s` while the rule about marks is kept. */
  ghost predicate MarkedFuture(s: Store, t: Store) {
    exists events :: AllAllowed(s, events) && AllMarked(s, events) && Run(s, events) == t
  }

  lemma MarkedIsFuture(s: Store, t: Store)
    requires MarkedFuture(s, t)
    ensures Future(s, t)
  {
  }

  lemma NowIsMarked(s: Store)
    ensures MarkedFuture(s, s)
  {
    assert AllAllowed(s, []) && AllMarked(s, []) && Run(s, []) == s;
  }

  lemma MarkedStepIsEarlier(s: Store, e: Event, t: Store)
    requires Allowed(s, e) && KeepsMarks(s, e) && MarkedFuture(Step(s, e), t)
    ensures MarkedFuture(s, t)
  {
    var events :| AllAllowed(Step(s, e), events) && AllMarked(Step(s, e), events) && Run(Step(s, e), events) == t;
    var all := [e] + events;
    assert all[1..] == events;
    assert AllAllowed(s, all) && AllMarked(s, all) && Run(s, all) == t;
  }

  /** The credit of an event that stays as it is stays too. */
  predicate KeepsCredits(s: Store, e: Event) {
    var t := Step(s, e);
    forall id :: id in s.events && id in t.events && t.events[id] == s.events[id] ==> CreditOf(t.related, id) == CreditOf(s.related, id)
  }

  predicate AllKept(s: Store, events: seq<Event>)
    decreases |events|
  {
    events == [] || (KeepsCredits(s, events[0]) && AllKept(Step(s, events[0]), events[1..]))
  }

  /** `t` can be reached from `s` while the rule about credits is kept. */
  ghost predicate KeptFuture(s: Store, t: Store) {
    exists events :: AllAllowed(s, events) && AllKept(s, events) && Run(s, events) == t
  }

  lemma KeptIsFuture(s: Store, t: Store)
    requires KeptFuture(s, t)
    ensures Future(s, t)
  {
  }

  lemma NowIsKept(s: Store)
    ensures KeptFuture(s, s)
  {
    assert AllAllowed(s, []) && AllKept(s, []) && Run(s, []) == s;
  }

  lemma KeptStepIsEarlier(s: Store, e: Event, t: Store)
    requires Allowed(s, e) && KeepsCredits(s, e) && KeptFuture(Step(s, e), t)
    ensures KeptFuture(s, t)
  {
    var events :| AllAllowed(Step(s, e), events) && AllKept(Step(s, e), events) && Run(Step(s, e), events) == t;
    var all := [e] + events;
    assert all[1..] == events;
    assert AllAllowed(s, all) && AllKept(s, all) && Run(s, all) == t;
  }

  // ---- the program keeps the rules ----

  /** Every link leads to a host. */
  predicate LinksAreHeld(r: Relations) {
    forall l :: l in r.links ==> r.links[l].host in r.hosts
  }

  /** An import drops the links of the events it writes and makes new ones; all other links stay. */
  ghost predicate RelinksOnly(was: Relations, now: Relations, written: set<Id>, ids: nat) {
    && (forall l :: l in was.links && was.links[l].event !in written ==> l in now.links && now.links[l] == was.links[l])
    && (forall l :: l in now.links ==> (l in was.links && now.links[l] == was.links[l] && now.links[l].event !in written)
                                       || (l > ids && now.links[l].event in written))
  }

  /** An import writes the events whose relations it replaces, and mints hosts and sources without touching older ones. */
  ghost predicate IsImport(s: Store, e: Event) {
    && e.WriteEvents? && LinksAreHeld(e.related)
    && RelinksOnly(s.related, e.related, e.puts.Keys, s.ids)
    && (forall h :: h in s.related.hosts ==> h in e.related.hosts && e.related.hosts[h] == s.related.hosts[h])
    && MarksNew(s.related.hosts, e.related.hosts, s.clock)
    && (forall id :: id !in e.puts ==>
          (id in s.related.sources <==> id in e.related.sources)
          && (id in s.related.sources ==> e.related.sources[id] == s.related.sources[id]))
    && MarksNew(s.related.sources, e.related.sources, s.clock)
    && e.related.registrations == s.related.registrations
  }

  /** A synchronisation of registrations changes nothing else. */
  ghost predicate IsRegistration(s: Store, e: Event) {
    && e.Relate? && e.related == s.related.(registrations := e.related.registrations)
    && MarksNew(s.related.registrations, e.related.registrations, s.clock)
  }

  ghost predicate IsProgramStep(s: Store, e: Event) {
    (e.WriteEvents? ==> IsImport(s, e)) && (e.Relate? ==> IsRegistration(s, e))
  }

  lemma ImportKeepsCredit(s: Store, e: Event, id: Id)
    requires LinksAreHeld(s.related) && IsImport(s, e) && id !in e.puts
    ensures CreditOf(e.related, id) == CreditOf(s.related, id)
  {
    SameSpeakersSameCredit(s.related, e.related, id);
  }

  lemma DeletionKeepsCredit(r: Relations, gone: set<Id>, id: Id)
    requires id !in gone
    ensures CreditOf(Cascaded(r, gone), id) == CreditOf(r, id)
  {
    var after := Cascaded(r, gone);
    forall l ensures l in after.links && after.links[l].event == id <==> l in r.links && r.links[l].event == id {}
    SameSpeakersSameCredit(r, after, id);
  }

  /** Equal links to equal hosts, and an equal source, make equal credits. */
  lemma SameSpeakersSameCredit(a: Relations, b: Relations, id: Id)
    requires forall l :: l in a.links && a.links[l].event == id <==> l in b.links && b.links[l].event == id
    requires forall l :: l in a.links && a.links[l].event == id ==> l in b.links && a.links[l] == b.links[l]
    requires forall l :: l in a.links && a.links[l].event == id ==> HostOf(a, a.links[l].host) == HostOf(b, a.links[l].host)
    requires (id in a.sources <==> id in b.sources) && (id in a.sources ==> a.sources[id] == b.sources[id])
    ensures CreditOf(a, id) == CreditOf(b, id)
  {
    forall x ensures x in CreditOf(a, id).speakers <==> x in CreditOf(b, id).speakers {}
  }

  lemma LinksKeepMarks(was: Relations, now: Relations, ids: nat)
    requires forall l :: l in now.links ==> (l in was.links && now.links[l] == was.links[l]) || l > ids
    ensures MarksNew(LinkCells(was), LinkCells(now), ids)
  {
  }

  lemma ProgramKeepsMarks(s: Store, e: Event)
    requires Allowed(s, e) && IsProgramStep(s, e)
    ensures KeepsMarks(s, e)
  {
    LinksKeepMarks(s.related, Step(s, e).related, s.ids);
  }

  /** Imports, registrations, deletions and everything that leaves events alone keep both rules. */
  lemma ProgramKeepsRules(s: Store, e: Event)
    requires IsStore(s) && Allowed(s, e) && LinksAreHeld(s.related) && IsProgramStep(s, e)
    ensures KeepsCredits(s, e) && KeepsMarks(s, e)
  {
    ProgramKeepsMarks(s, e);
    var t := Step(s, e);
    forall id | id in s.events && id in t.events && t.events[id] == s.events[id]
      ensures CreditOf(t.related, id) == CreditOf(s.related, id)
    {
      match e
      case WriteEvents(puts, _, _, _) =>
        assert id !in puts;
        ImportKeepsCredit(s, e, id);
      case DeleteEvents(gone) => DeletionKeepsCredit(s.related, gone, id);
      case _ =>
    }
  }

  ghost predicate AllProgram(s: Store, events: seq<Event>)
    decreases |events|
  {
    events == [] || (IsProgramStep(s, events[0]) && AllProgram(Step(s, events[0]), events[1..]))
  }

  /** Every run of the program keeps both rules. */
  lemma {:induction false} ProgramRunKeepsRules(s: Store, events: seq<Event>)
    requires IsStore(s) && LinksAreHeld(s.related) && AllAllowed(s, events) && AllProgram(s, events)
    ensures AllKept(s, events) && AllMarked(s, events)
    decreases |events|
  {
    if events != [] {
      ProgramKeepsRules(s, events[0]);
      StepKeepsStore(s, events[0]);
      ProgramRunKeepsRules(Step(s, events[0]), events[1..]);
    }
  }

  // ---- equal stamps of all tables, equal records ----

  /** No table has gained rows with marks up to those of the stamps. */
  ghost predicate TablesShrink(before: Store, now: Store, stamps: TableStamps) {
    && OnlyShrinks(before.events, now.events, stamps.events.latest)
    && OnlyShrinks(before.related.hosts, now.related.hosts, stamps.hosts.latest)
    && OnlyShrinks(LinkCells(before.related), LinkCells(now.related), stamps.links.latest)
    && OnlyShrinks(before.related.registrations, now.related.registrations, stamps.registrations.latest)
    && OnlyShrinks(before.related.sources, now.related.sources, stamps.sources.latest)
  }

  ghost predicate ArePast(s: Store, stamps: TableStamps) {
    && stamps.events.latest <= s.clock && stamps.hosts.latest <= s.clock && stamps.links.latest <= s.ids
    && stamps.registrations.latest <= s.clock && stamps.sources.latest <= s.clock
  }

  lemma StampsArePast(s: Store)
    requires IsStore(s)
    ensures ArePast(s, TableStampsOf(s))
  {
    LatestIsPast(s.events, s.clock);
    LatestIsPast(s.related.hosts, s.clock);
    LatestIsPast(LinkCells(s.related), s.ids);
    LatestIsPast(s.related.registrations, s.clock);
    LatestIsPast(s.related.sources, s.clock);
  }

  lemma StepShrinksTables(before: Store, s: Store, e: Event, stamps: TableStamps)
    requires Allowed(s, e) && KeepsMarks(s, e) && ArePast(s, stamps) && TablesShrink(before, s, stamps)
    ensures TablesShrink(before, Step(s, e), stamps)
  {
    var t := Step(s, e);
    StepMarksNew(s, e, "");
    ShrinksOn(before.events, s.events, t.events, stamps.events.latest, s.clock);
    ShrinksOn(before.related.hosts, s.related.hosts, t.related.hosts, stamps.hosts.latest, s.clock);
    ShrinksOn(LinkCells(before.related), LinkCells(s.related), LinkCells(t.related), stamps.links.latest, s.ids);
    ShrinksOn(before.related.registrations, s.related.registrations, t.related.registrations, stamps.registrations.latest, s.clock);
    ShrinksOn(before.related.sources, s.related.sources, t.related.sources, stamps.sources.latest, s.clock);
  }

  lemma {:induction false} RunShrinksTables(before: Store, s: Store, events: seq<Event>, stamps: TableStamps)
    requires IsStore(s) && AllAllowed(s, events) && AllMarked(s, events)
    requires ArePast(s, stamps) && TablesShrink(before, s, stamps)
    ensures TablesShrink(before, Run(s, events), stamps)
    decreases |events|
  {
    if events != [] {
      StepShrinksTables(before, s, events[0], stamps);
      StepKeepsStore(s, events[0]);
      RunShrinksTables(before, Step(s, events[0]), events[1..], stamps);
    }
  }

  lemma SameLinks(a: Relations, b: Relations)
    requires LinkCells(a) == LinkCells(b)
    ensures a.links == b.links
  {
    forall l ensures l in a.links <==> l in b.links { assert l in LinkCells(a) <==> l in LinkCells(b); }
    forall l | l in a.links ensures a.links[l] == b.links[l] { assert LinkCells(a)[l] == LinkCells(b)[l]; }
  }

  /** While the rule about marks is kept, equal stamps of the tables at two moments mean equal tables. */
  lemma EqualStampsEqualTables(s: Store, t: Store)
    requires IsStore(s) && MarkedFuture(s, t) && TableStampsOf(s) == TableStampsOf(t)
    ensures s.events == t.events && s.related == t.related
  {
    var events :| AllAllowed(s, events) && AllMarked(s, events) && Run(s, events) == t;
    var stamps := TableStampsOf(s);
    StampsArePast(s);
    RunShrinksTables(s, s, events, stamps);
    SameSizeSameRows(s.events, t.events, stamps.events);
    SameSizeSameRows(s.related.hosts, t.related.hosts, stamps.hosts);
    SameSizeSameRows(LinkCells(s.related), LinkCells(t.related), stamps.links);
    SameSizeSameRows(s.related.registrations, t.related.registrations, stamps.registrations);
    SameSizeSameRows(s.related.sources, t.related.sources, stamps.sources);
    SameLinks(s.related, t.related);
  }

  /** The rule is needed: in every store a link that is led to another host under its old id leaves all stamps and changes the records. */
  lemma RewrittenLinkHides(s: Store, l: Id, h: Id)
    requires IsStore(s) && l in s.related.links && s.related.links[l].event in s.events
    requires HostOf(s.related, h) != HostOf(s.related, s.related.links[l].host)
    ensures var e := Relate(s.clock + 1, s.related.(links := s.related.links[l := s.related.links[l].(host := h)]), s.ids);
            && Allowed(s, e) && !KeepsMarks(s, e)
            && TableStampsOf(Step(s, e)) == TableStampsOf(s) && EventRecords(Step(s, e)) != EventRecords(s)
  {
    var link := s.related.links[l];
    var now := s.related.(links := s.related.links[l := link.(host := h)]);
    var t := Step(s, Relate(s.clock + 1, now, s.ids));
    SameMarksSameStamp(LinkCells(s.related), LinkCells(now));
    RelinkedIsBounded(s.related, now, s.clock, s.ids);
    assert l in LinkCells(s.related) && l in LinkCells(now);
    assert LinkCells(now)[l] != LinkCells(s.related)[l] && LinkCells(s.related)[l].mark <= s.ids;
    RelinkedSpeaker(s.related, now, l, link.event);
    assert EventRecords(t)[link.event].credit != EventRecords(s)[link.event].credit;
  }

  lemma RelinkedIsBounded(was: Relations, now: Relations, clock: nat, ids: nat)
    requires AreBounded(was, clock, ids) && now.links.Keys == was.links.Keys && now == was.(links := now.links)
    ensures AreBounded(now, clock + 1, ids)
  {
    forall l | l in LinkCells(now) ensures LinkCells(now)[l].mark <= ids { assert l in LinkCells(was); }
  }

  lemma RelinkedSpeaker(was: Relations, now: Relations, l: Id, id: Id)
    requires l in was.links && l in now.links && was.links[l].event == id == now.links[l].event
    requires HostOf(now, now.links[l].host) != HostOf(was, was.links[l].host)
    ensures CreditOf(now, id) != CreditOf(was, id)
  {
    var speaker := Speaker(l, now.links[l].position, HostOf(now, now.links[l].host));
    assert speaker in CreditOf(now, id).speakers && speaker !in CreditOf(was, id).speakers;
  }

  // ---- equal event stamps, equal credits ----

  /** Of the events no newer than `time`, those of `now` are among those of `before`, credits included. */
  ghost predicate CreditsOnlyShrink(before: map<Id, (Cell<Row>, Credit)>, now: map<Id, (Cell<Row>, Credit)>, time: nat) {
    forall id :: id in now && now[id].0.mark <= time ==> id in before && before[id] == now[id]
  }

  lemma StepShrinksCredits(before: map<Id, (Cell<Row>, Credit)>, s: Store, e: Event, time: nat)
    requires Allowed(s, e) && KeepsCredits(s, e) && time <= s.clock && CreditsOnlyShrink(before, Credited(s), time)
    ensures CreditsOnlyShrink(before, Credited(Step(s, e)), time)
  {
    var t := Step(s, e);
    StepMarksNew(s, e, "");
    forall id | id in Credited(t) && Credited(t)[id].0.mark <= time ensures id in before && before[id] == Credited(t)[id] {
      assert id in s.events && t.events[id] == s.events[id];
      assert Credited(s)[id] == Credited(t)[id];
    }
  }

  lemma {:induction false} RunShrinksCredits(before: map<Id, (Cell<Row>, Credit)>, s: Store, events: seq<Event>, time: nat)
    requires IsStore(s) && AllAllowed(s, events) && AllKept(s, events)
    requires time <= s.clock && CreditsOnlyShrink(before, Credited(s), time)
    ensures CreditsOnlyShrink(before, Credited(Run(s, events)), time)
    decreases |events|
  {
    if events != [] {
      StepShrinksCredits(before, s, events[0], time);
      StepKeepsStore(s, events[0]);
      RunShrinksCredits(before, Step(s, events[0]), events[1..], time);
    }
  }

  lemma SameSizeSameCredits(s: Store, t: Store, stamp: Stamp)
    requires IsStampOf(s.events, stamp) && IsStampOf(t.events, stamp)
    requires CreditsOnlyShrink(Credited(s), Credited(t), stamp.latest)
    ensures Credited(s) == Credited(t)
  {
    forall id | id in t.events ensures id in s.events && s.events[id] == t.events[id] {
      assert id in Credited(t) && Credited(t)[id].0 == t.events[id];
    }
    SameSizeSameRows(s.events, t.events, stamp);
    forall id | id in s.events ensures Credited(s)[id] == Credited(t)[id] { assert id in Credited(t); }
  }

  /** While the rule about credits is kept, equal event stamps at two moments mean equal events and equal credits. */
  lemma EqualStampsEqualCredits(s: Store, t: Store)
    requires IsStore(s) && KeptFuture(s, t) && EventStamp(s) == EventStamp(t)
    ensures Credited(s) == Credited(t)
  {
    var events :| AllAllowed(s, events) && AllKept(s, events) && Run(s, events) == t;
    LatestIsPast(s.events, s.clock);
    RunShrinksCredits(Credited(s), s, events, EventStamp(s).latest);
    SameSizeSameCredits(s, t, EventStamp(s));
  }

  /** A change that leaves the stamp as it is leaves the credits as they are if and only if it keeps the rule. */
  lemma StampTellsIff(s: Store, e: Event)
    requires IsStore(s) && Allowed(s, e) && EventStamp(Step(s, e)) == EventStamp(s)
    ensures Credited(Step(s, e)) == Credited(s) <==> KeepsCredits(s, e)
  {
    var t := Step(s, e);
    if KeepsCredits(s, e) {
      assert AllKept(t, []) && AllAllowed(t, []) && Run(t, []) == t;
      assert [e][1..] == [] && AllAllowed(s, [e]) && AllKept(s, [e]) && Run(s, [e]) == t;
      EqualStampsEqualCredits(s, t);
    }
    if Credited(t) == Credited(s) {
      forall id | id in s.events && id in t.events && t.events[id] == s.events[id]
        ensures CreditOf(t.related, id) == CreditOf(s.related, id)
      {
        assert Credited(t)[id] == Credited(s)[id];
      }
    }
  }

  /** The rule is needed: in every store a link that goes away by itself leaves the event stamp and changes the credits. */
  lemma SilentLinkHides(s: Store, l: Id)
    requires IsStore(s) && l in s.related.links && s.related.links[l].event in s.events
    ensures var e := Relate(s.clock + 1, s.related.(links := s.related.links - {l}), s.ids);
            && Allowed(s, e) && EventStamp(Step(s, e)) == EventStamp(s) && Credited(Step(s, e)) != Credited(s)
            && KeepsMarks(s, e) && !KeepsCredits(s, e)
  {
    var link := s.related.links[l];
    var e := Relate(s.clock + 1, s.related.(links := s.related.links - {l}), s.ids);
    var t := Step(s, e);
    FewerLinks(s.related, e.related, s.clock, s.ids);
    var speaker := Speaker(l, link.position, HostOf(s.related, link.host));
    assert speaker in CreditOf(s.related, link.event).speakers && speaker !in CreditOf(t.related, link.event).speakers;
    assert Credited(s)[link.event].1 != Credited(t)[link.event].1;
    StampTellsIff(s, e);
  }

  lemma FewerLinks(was: Relations, now: Relations, clock: nat, ids: nat)
    requires AreBounded(was, clock, ids) && now == was.(links := now.links)
    requires forall l :: l in now.links ==> l in was.links && now.links[l] == was.links[l]
    ensures AreBounded(now, clock + 1, ids) && MarksNew(LinkCells(was), LinkCells(now), ids)
  {
    forall l | l in LinkCells(now) ensures l in LinkCells(was) && LinkCells(was)[l] == LinkCells(now)[l] {}
  }
}
