/**
 The rows the catalogue is read from, how they may change, and the stamps that name
 their state: the number of a source's rows and the newest of their times.
 */
module CatalogueStore {
  import opened Stamps
  import opened Text

  type Source = string
  type Kind = string
  type Record = string

  datatype Row = Row(source: Source, kind: Kind, key: string, record: Record, published: bool)

  // Rows under the times of their last writes.
  type Rows = map<Id, Cell<Row>>

  // A document of a release: its stored position, its record and whether it is published.
  datatype Document = Document(kind: Kind, position: int, record: Record, published: bool)

  datatype Host = Host(reference: string, name: string)
  datatype Link = Link(event: Id, host: Id, position: nat)
  datatype Registration = Registration(event: Id, counted: bool)

  // What hangs on event rows: the links of events to hosts, which carry no times, the hosts, the
  // registrations, and for an event where it comes from.
  datatype Relations = Relations(links: map<Id, Link>, hosts: map<Id, Cell<Host>>,
                                 registrations: map<Id, Cell<Registration>>, sources: map<Id, Cell<string>>)

  const NO_RELATIONS := Relations(map[], map[], map[], map[])

  /** Links under their ids. */
  function LinkCells(r: Relations): map<Id, Cell<Link>> {
    map id | id in r.links :: Cell(id, r.links[id])
  }

  // Rows by id, enabled sources, the newest time given out, the releases with the active one,
  // the event rows with their relations, and the newest id given to a link.
  datatype Store = Store(rows: Rows, enabled: set<Source>, clock: nat,
                         releases: map<string, set<Document>>, active: string,
                         events: Rows, related: Relations, ids: nat)

  const EMPTY := Store(map[], {}, 0, map[], "", map[], NO_RELATIONS, 0)

  // Events are written together with the relations that then hold; relations can also change alone.
  datatype Event =
    | Write(puts: map<Id, Row>, time: nat)
    | Delete(gone: set<Id>)
    | Enable(source: Source)
    | Disable(source: Source)
    | Import(release: string, documents: set<Document>)
    | Activate(release: string)
    | WriteEvents(puts: map<Id, Row>, time: nat, related: Relations, ids: nat)
    | DeleteEvents(gone: set<Id>)
    | Relate(time: nat, related: Relations, ids: nat)

  /** No relation is marked later than `clock`, or has a greater id than `ids`. */
  predicate AreBounded(r: Relations, clock: nat, ids: nat) {
    Bounded(LinkCells(r), ids) && Bounded(r.hosts, clock) && Bounded(r.registrations, clock) && Bounded(r.sources, clock)
  }

  /** A write takes a time later than every earlier one; a release is imported once, under a name. */
  predicate Allowed(s: Store, e: Event) {
    match e
    case Write(_, time) => time > s.clock
    case Import(release, _) => release != "" && release !in s.releases
    case Activate(release) => release == "" || release in s.releases
    case WriteEvents(_, time, related, ids) => time > s.clock && ids >= s.ids && AreBounded(related, time, ids)
    case Relate(time, related, ids) => time > s.clock && ids >= s.ids && AreBounded(related, time, ids)
    case _ => true
  }

  function Stamped(puts: map<Id, Row>, time: nat): Rows {
    map id | id in puts :: Cell(time, puts[id])
  }

  /** Links, registrations and sources go with their event. */
  function Cascaded(r: Relations, gone: set<Id>): Relations {
    Relations(map id | id in r.links && r.links[id].event !in gone :: r.links[id], r.hosts,
              map id | id in r.registrations && r.registrations[id].value.event !in gone :: r.registrations[id], r.sources - gone)
  }

  function Step(s: Store, e: Event): Store {
    match e
    case Write(puts, time) => s.(rows := s.rows + Stamped(puts, time), clock := time)
    case Delete(gone) => s.(rows := s.rows - gone)
    case Enable(source) => s.(enabled := s.enabled + {source})
    case Disable(source) => s.(enabled := s.enabled - {source})
    case Import(release, documents) => s.(releases := s.releases[release := documents])
    case Activate(release) => s.(active := release)
    case WriteEvents(puts, time, related, ids) =>
      s.(events := s.events + Stamped(puts, time), clock := time, related := related, ids := ids)
    case DeleteEvents(gone) => s.(events := s.events - gone, related := Cascaded(s.related, gone))
    case Relate(time, related, ids) => s.(clock := time, related := related, ids := ids)
  }

  function Run(s: Store, events: seq<Event>): Store
    decreases |events|
  {
    if events == [] then s else Run(Step(s, events[0]), events[1..])
  }

  predicate AllAllowed(s: Store, events: seq<Event>)
    decreases |events|
  {
    events == [] || (Allowed(s, events[0]) && AllAllowed(Step(s, events[0]), events[1..]))
  }

  /** `t` can be reached from `s`. */
  ghost predicate Future(s: Store, t: Store) {
    exists events :: AllAllowed(s, events) && Run(s, events) == t
  }

  // ---- what changes ----

  /** The rows put stand with the time, all others as before. */
  ghost predicate AreOverwritten(before: Rows, puts: map<Id, Row>, time: nat, after: Rows) {
    && after.Keys == before.Keys + puts.Keys
    && forall id :: id in after ==> if id in puts then after[id].mark == time && after[id].value == puts[id] else after[id] == before[id]
  }

  ghost predicate AreRemoved(before: Rows, gone: set<Id>, after: Rows) {
    after.Keys == before.Keys - gone && forall id :: id in after ==> after[id] == before[id]
  }

  /** What hangs on an event that is gone goes with it, and only that; hosts stay. */
  ghost predicate GoWith(before: Relations, gone: set<Id>, after: Relations) {
    && (forall l :: l in after.links <==> l in before.links && before.links[l].event !in gone)
    && (forall l :: l in after.links ==> after.links[l] == before.links[l])
    && (forall x :: x in after.registrations <==> x in before.registrations && before.registrations[x].value.event !in gone)
    && (forall x :: x in after.registrations ==> after.registrations[x] == before.registrations[x])
    && (forall x :: x in after.sources <==> x in before.sources && x !in gone)
    && (forall x :: x in after.sources ==> after.sources[x] == before.sources[x])
    && after.hosts == before.hosts
  }

  /** Rows, events and their relations after each change. */
  lemma StepMeans(s: Store, e: Event)
    ensures var t := Step(s, e);
            && (if e.Write? then AreOverwritten(s.rows, e.puts, e.time, t.rows)
                else AreRemoved(s.rows, if e.Delete? then e.gone else {}, t.rows))
            && (if e.WriteEvents? then AreOverwritten(s.events, e.puts, e.time, t.events)
                else AreRemoved(s.events, if e.DeleteEvents? then e.gone else {}, t.events))
            && (if e.WriteEvents? || e.Relate? then t.related == e.related
                else GoWith(s.related, if e.DeleteEvents? then e.gone else {}, t.related))
  {
    if !e.WriteEvents? && !e.Relate? { CascadedIs(s.related, if e.DeleteEvents? then e.gone else {}); }
  }

  lemma CascadedIs(r: Relations, gone: set<Id>)
    ensures GoWith(r, gone, Cascaded(r, gone)) && (gone == {} ==> GoWith(r, gone, r))
  {
  }

  // ---- stamps ----

  function RowsOf(s: Store, source: Source): Rows {
    map id | id in s.rows && s.rows[id].value.source == source :: s.rows[id]
  }

  /** The stamp of one source: nothing when the source is disabled. */
  ghost function SyncedStamp(s: Store, source: Source): Stamp {
    if source in s.enabled then StampOf(RowsOf(s, source)) else NO_STAMP
  }

  /** The aggregate over one source's rows. */
  method ReadStamp(s: Store, source: Source) returns (stamp: Stamp)
    ensures stamp == SyncedStamp(s, source)
  {
    if source !in s.enabled {
      return NO_STAMP;
    }
    stamp := Aggregate(RowsOf(s, source));
  }

  // ---- equal stamps, equal rows ----

  /** Times lie between one and the clock. */
  predicate IsStore(s: Store) {
    && (forall id :: id in s.rows ==> 0 < s.rows[id].mark <= s.clock)
    && (forall id :: id in s.events ==> 0 < s.events[id].mark <= s.clock)
    && AreBounded(s.related, s.clock, s.ids)
    && (s.active == "" || s.active in s.releases) && "" !in s.releases
  }

  lemma StepKeepsStore(s: Store, e: Event)
    requires IsStore(s) && Allowed(s, e)
    ensures IsStore(Step(s, e)) && s.clock <= Step(s, e).clock && s.ids <= Step(s, e).ids
  {
    if e.DeleteEvents? { CascadedIsBounded(s.related, e.gone, s.clock, s.ids); }
  }

  lemma CascadedIsBounded(r: Relations, gone: set<Id>, clock: nat, ids: nat)
    requires AreBounded(r, clock, ids)
    ensures AreBounded(Cascaded(r, gone), clock, ids)
  {
    var after := Cascaded(r, gone);
    forall id | id in LinkCells(after) ensures LinkCells(after)[id].mark <= ids { assert id in LinkCells(r); }
  }

  lemma StepMarksNew(s: Store, e: Event, source: Source)
    requires Allowed(s, e)
    ensures MarksNew(RowsOf(s, source), RowsOf(Step(s, e), source), s.clock) && MarksNew(s.events, Step(s, e).events, s.clock)
  {
  }

  /** Rows no newer than a past time can only go away. */
  lemma {:induction false} RunShrinks(before: Rows, s: Store, events: seq<Event>, source: Source, time: nat)
    requires IsStore(s) && AllAllowed(s, events) && time <= s.clock && OnlyShrinks(before, RowsOf(s, source), time)
    ensures OnlyShrinks(before, RowsOf(Run(s, events), source), time) && IsStore(Run(s, events))
    decreases |events|
  {
    if events != [] {
      var next := Step(s, events[0]);
      StepMarksNew(s, events[0], source);
      ShrinksOn(before, RowsOf(s, source), RowsOf(next, source), time, s.clock);
      StepKeepsStore(s, events[0]);
      RunShrinks(before, next, events[1..], source, time);
    }
  }

  /** No stamp names two states of a source's rows: at any two moments of a run, equal stamps mean equal rows. */
  lemma EqualStampsEqualRows(s: Store, t: Store, source: Source)
    requires IsStore(s) && Future(s, t) && SyncedStamp(s, source) == SyncedStamp(t, source) && SyncedStamp(s, source).count > 0
    ensures RowsOf(s, source) == RowsOf(t, source)
  {
    var events :| AllAllowed(s, events) && Run(s, events) == t;
    var before, stamp := RowsOf(s, source), SyncedStamp(s, source);
    LatestIsPast(before, s.clock);
    RunShrinks(before, s, events, source, stamp.latest);
    SameSizeSameRows(before, RowsOf(t, source), stamp);
  }

  /** Writing one row again changes that row of its source and nothing else. */
  lemma RowIsRewritten(s: Store, id: Id, other: Row, time: nat)
    requires id in s.rows && other.source == s.rows[id].value.source
    ensures RowsOf(Step(s, Write(map[id := other], time)), other.source) == RowsOf(s, other.source)[id := Cell(time, other)]
  {
  }

  /** The rule about times is needed: in every store, writing the newest row again at the same time hides behind its stamp. */
  lemma ReusedTimeHides(s: Store, id: Id, other: Row)
    requires IsStore(s) && id in s.rows && s.rows[id].mark == s.clock
    requires other.source == s.rows[id].value.source && other.record != s.rows[id].value.record
    ensures var t := Step(s, Write(map[id := other], s.clock));
            && RowsOf(t, other.source) != RowsOf(s, other.source)
            && SyncedStamp(t, other.source) == SyncedStamp(s, other.source)
  {
    RowIsRewritten(s, id, other, s.clock);
    var before := RowsOf(s, other.source);
    var after := before[id := Cell(s.clock, other)];
    assert after[id].value.record != before[id].value.record;
    SameMarksSameStamp(before, after);
  }

  // ---- one grouped query for all sources ----

  /** The rows of a source among the given ones. */
  function RowsAmong(s: Store, ids: set<Id>, source: Source): Rows {
    map id | id in ids && id in s.rows && s.rows[id].value.source == source :: s.rows[id]
  }

  /** A source has a group exactly when it has rows, and the group is their stamp. */
  ghost predicate IsGroup(rows: Rows, stamps: map<Source, Stamp>, source: Source) {
    if source in stamps then rows != map[] && IsStampOf(rows, stamps[source]) else rows == map[]
  }

  ghost predicate Grouped(s: Store, seen: set<Id>, stamps: map<Source, Stamp>) {
    forall source :: IsGroup(RowsAmong(s, seen, source), stamps, source)
  }

  /** The group of `row` after one more row. */
  function Counted(stamps: map<Source, Stamp>, row: Cell<Row>): Stamp {
    var held := if row.value.source in stamps then stamps[row.value.source] else NO_STAMP;
    Stamp(held.count + 1, Later(held.latest, row.mark))
  }

  lemma OwnGroup(s: Store, seen: set<Id>, id: Id, stamps: map<Source, Stamp>)
    requires id in s.rows && id !in seen && IsGroup(RowsAmong(s, seen, s.rows[id].value.source), stamps, s.rows[id].value.source)
    ensures var source := s.rows[id].value.source;
            RowsAmong(s, seen + {id}, source) != map[] && IsStampOf(RowsAmong(s, seen + {id}, source), Counted(stamps, s.rows[id]))
  {
    var source := s.rows[id].value.source;
    var now := RowsAmong(s, seen + {id}, source);
    assert now - {id} == RowsAmong(s, seen, source);
    assert id in now;
    AddRow(now, id, if source in stamps then stamps[source] else NO_STAMP);
  }

  lemma OtherGroup(s: Store, seen: set<Id>, id: Id, source: Source)
    requires id in s.rows && source != s.rows[id].value.source
    ensures RowsAmong(s, seen + {id}, source) == RowsAmong(s, seen, source)
  {
  }

  /** One more row moves the group of its source and no other. */
  lemma GroupRow(s: Store, seen: set<Id>, id: Id, stamps: map<Source, Stamp>)
    requires Grouped(s, seen, stamps) && id in s.rows && id !in seen
    ensures Grouped(s, seen + {id}, stamps[s.rows[id].value.source := Counted(stamps, s.rows[id])])
  {
    var own := s.rows[id].value.source;
    var next := stamps[own := Counted(stamps, s.rows[id])];
    forall source ensures IsGroup(RowsAmong(s, seen + {id}, source), next, source) {
      assert IsGroup(RowsAmong(s, seen, source), stamps, source);
      if source == own { OwnGroup(s, seen, id, stamps); } else { OtherGroup(s, seen, id, source); }
    }
  }

  /** The stamps of a request: one pass over the rows of all enabled sources, grouped by source. */
  method RequestStamps(s: Store) returns (stamps: map<Source, Stamp>)
    ensures forall source :: (if source in stamps then stamps[source] else NO_STAMP) == SyncedStamp(s, source)
  {
    stamps := map[];
    var rows := set id | id in s.rows && s.rows[id].value.source in s.enabled;
    var left := rows;
    while left != {}
      invariant left <= rows && Grouped(s, rows - left, stamps)
      decreases left
    {
      var id :| id in left;
      GroupRow(s, rows - left, id, stamps);
      assert rows - (left - {id}) == (rows - left) + {id};
      var row := s.rows[id];
      var source := row.value.source;
      var held := if source in stamps then stamps[source] else NO_STAMP;
      stamps := stamps[source := Stamp(held.count + 1, if held.latest < row.mark then row.mark else held.latest)];
      left := left - {id};
    }
    assert rows - left == rows;
    forall source ensures (if source in stamps then stamps[source] else NO_STAMP) == SyncedStamp(s, source) {
      GroupIsStamp(s, rows, stamps, source);
    }
  }

  /** Over all enabled rows a group is the stamp of its source. */
  lemma GroupIsStamp(s: Store, rows: set<Id>, stamps: map<Source, Stamp>, source: Source)
    requires rows == (set id | id in s.rows && s.rows[id].value.source in s.enabled) && Grouped(s, rows, stamps)
    ensures (if source in stamps then stamps[source] else NO_STAMP) == SyncedStamp(s, source)
  {
    assert IsGroup(RowsAmong(s, rows, source), stamps, source);
    if source in s.enabled {
      assert RowsAmong(s, rows, source) == RowsOf(s, source);
    } else {
      assert RowsAmong(s, rows, source) == map[];
    }
    if source in s.enabled && source in stamps { OneStamp(RowsOf(s, source), stamps[source], SyncedStamp(s, source)); }
  }

  // ---- futures ----

  lemma NowIsFuture(s: Store)
    ensures Future(s, s)
  {
    assert AllAllowed(s, []) && Run(s, []) == s;
  }

  lemma StepIsEarlier(s: Store, e: Event, t: Store)
    requires Allowed(s, e) && Future(Step(s, e), t)
    ensures Future(s, t)
  {
    var events :| AllAllowed(Step(s, e), events) && Run(Step(s, e), events) == t;
    var all := [e] + events;
    assert all[1..] == events;
    assert AllAllowed(s, all) && Run(s, all) == t;
  }

  /** A release keeps its documents for ever. */
  lemma {:induction false} ReleasesStay(s: Store, events: seq<Event>, release: string)
    requires AllAllowed(s, events) && release in s.releases
    ensures release in Run(s, events).releases && Run(s, events).releases[release] == s.releases[release]
    decreases |events|
  {
    if events != [] { ReleasesStay(Step(s, events[0]), events[1..], release); }
  }

  // ---- the order of a query ----

  /** The rows of one source and kind as a query returns them: by key, and no key twice. */
  ghost predicate InKeyOrder(rows: seq<(string, Record)>) {
    forall i, j :: 0 <= i < j < |rows| ==> Less(rows[i].0, rows[j].0)
  }

  /** A query's answer is a function of the set of rows it selects. */
  lemma {:induction false} QueryOrderIsDetermined(a: seq<(string, Record)>, b: seq<(string, Record)>)
    requires InKeyOrder(a) && InKeyOrder(b) && forall x :: x in a <==> x in b
    ensures a == b
  {
    assert (a != [] ==> a[0] in a) && (b != [] ==> b[0] in b);
    if a != [] && b != [] {
      SameFirst(a, b);
      RestHolds(a);
      RestHolds(b);
      QueryOrderIsDetermined(a[1..], b[1..]);
      assert a == [a[0]] + a[1..] && b == [b[0]] + b[1..];
    }
  }

  lemma FirstIsLeast(rows: seq<(string, Record)>, x: (string, Record))
    requires InKeyOrder(rows) && x in rows
    ensures x == rows[0] || Less(rows[0].0, x.0)
  {
  }

  lemma SameFirst(a: seq<(string, Record)>, b: seq<(string, Record)>)
    requires InKeyOrder(a) && InKeyOrder(b) && a != [] && b != [] && a[0] in b && b[0] in a
    ensures a[0] == b[0]
  {
    FirstIsLeast(a, b[0]);
    FirstIsLeast(b, a[0]);
    LessTotal(a[0].0, b[0].0);
  }

  lemma RestHolds(rows: seq<(string, Record)>)
    requires InKeyOrder(rows) && rows != []
    ensures InKeyOrder(rows[1..]) && forall x :: x in rows[1..] <==> x in rows && x != rows[0]
  {
    LessTotal(rows[0].0, rows[0].0);
    forall x | x in rows && x != rows[0] ensures x in rows[1..] {
      var i :| 0 <= i < |rows| && rows[i] == x;
      assert rows[1..][i - 1] == x;
    }
  }
}
