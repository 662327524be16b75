/**
 The public catalogue: readers that remember their answers under the stamps of the rows
 they were read from, or under the release they belong to.
 */
module Catalogue {
  import opened Wrappers
  import opened Stamps
  import opened CatalogueStore
  import opened EventCredits
  import opened LruCache

  // How published rows of a kind become records, how the records of several sources are
  // combined, how profiles are derived from people, works and credited events, and the
  // order of a release's documents. Nothing means a refusal.
  datatype Shape = Shape(build: (Kind, set<(string, Record)>) -> Option<seq<Record>>,
                         combine: (Kind, seq<seq<Record>>) -> Option<seq<Record>>,
                         profiles: (seq<seq<Record>>, map<Id, (Cell<Row>, Credit)>) -> Option<seq<Record>>,
                         arrange: set<Document> -> seq<Record>)

  // Which kinds moved away, which come from one source, and which are combined from several.
  datatype Config = Config(moved: set<Kind>, single: map<Kind, Source>, editorial: set<Kind>,
                           media: Kind, course: Kind, people: Kind, works: seq<Kind>,
                           editorialSource: Source, peopleSource: Source, courseSources: seq<Source>)

  // A combined reader: what it reads, in order, and whether an empty first source ends it.
  datatype Reader = Reader(kind: Kind, parts: seq<(Source, Kind)>, guarded: bool)

  function EditorialReader(c: Config, kind: Kind): Reader {
    Reader(kind, [(c.editorialSource, kind), (c.peopleSource, c.people)], true)
  }

  /** The rows profiles are derived from, besides the events: the people and the works. */
  function PeopleParts(c: Config): seq<(Source, Kind)> {
    [(c.peopleSource, c.people)] + seq(|c.works|, i requires 0 <= i < |c.works| => (c.editorialSource, c.works[i]))
  }

  function MediaReader(c: Config): Reader {
    Reader(c.media, [(c.editorialSource, c.media), (c.peopleSource, c.media)], false)
  }

  function CourseReader(c: Config): Reader {
    Reader(c.course, seq(|c.courseSources|, i requires 0 <= i < |c.courseSources| => (c.courseSources[i], c.course)), false)
  }

  // ---- reads without a cache ----

  function Published(rows: Rows, kind: Kind): set<(string, Record)> {
    set id | id in rows && rows[id].value.kind == kind && rows[id].value.published :: (rows[id].value.key, rows[id].value.record)
  }

  /** What one source publishes of a kind; a source without rows, or disabled, publishes nothing. */
  ghost function UncachedRecords(shape: Shape, s: Store, source: Source, kind: Kind): Option<seq<Record>> {
    if SyncedStamp(s, source).count == 0 then Some([]) else shape.build(kind, Published(RowsOf(s, source), kind))
  }

  ghost function UncachedParts(shape: Shape, s: Store, parts: seq<(Source, Kind)>): Option<seq<seq<Record>>> {
    if parts == [] then Some([])
    else
      var older := UncachedParts(shape, s, parts[..|parts| - 1]);
      var last := UncachedRecords(shape, s, parts[|parts| - 1].0, parts[|parts| - 1].1);
      if older.None? || last.None? then None else Some(older.value + [last.value])
  }

  ghost function UncachedCombined(shape: Shape, s: Store, reader: Reader): Option<seq<Record>> {
    if reader.guarded && reader.parts != [] && SyncedStamp(s, reader.parts[0].0).count == 0 then Some([])
    else
      var parts := UncachedParts(shape, s, reader.parts);
      if parts.None? then None else shape.combine(reader.kind, parts.value)
  }

  // The records of the events, and the people records that the paths of their speakers are looked up in.
  datatype EventAnswer = EventAnswer(records: map<Id, EventRecord>, people: seq<Record>)

  /** A published event has a speaker with a reference. */
  predicate NamesSpeakers(records: map<Id, EventRecord>) {
    exists id :: id in records && records[id].row.value.published
                 && exists x :: x in records[id].credit.speakers && x.host.reference != ""
  }

  /** The published events; the people are read only when a speaker has to be looked up. */
  ghost function UncachedEvents(shape: Shape, c: Config, s: Store): Option<EventAnswer> {
    var records := EventRecords(s);
    if !NamesSpeakers(records) then Some(EventAnswer(records, []))
    else
      var people := UncachedRecords(shape, s, c.peopleSource, c.people);
      if people.None? then None else Some(EventAnswer(records, people.value))
  }

  /** The profiles, with the credits of works and events. */
  ghost function UncachedPeople(shape: Shape, c: Config, s: Store): Option<seq<Record>> {
    if SyncedStamp(s, c.peopleSource).count == 0 then Some([])
    else
      var parts := UncachedParts(shape, s, PeopleParts(c));
      if parts.None? then None else shape.profiles(parts.value, Credited(s))
  }

  function OfKind(documents: set<Document>, kind: Kind): set<Document> {
    set d | d in documents && d.kind == kind && d.published
  }

  function ReleaseRecords(shape: Shape, s: Store, release: string, kind: Kind): seq<Record> {
    if release !in s.releases then [] else shape.arrange(OfKind(s.releases[release], kind))
  }

  /** Every published record of a kind, read afresh. */
  ghost function Uncached(shape: Shape, c: Config, s: Store, kind: Kind): Option<seq<Record>> {
    if kind in c.moved then Some([])
    else if kind in c.single then UncachedRecords(shape, s, c.single[kind], kind)
    else if kind == c.people then UncachedPeople(shape, c, s)
    else if kind in c.editorial then UncachedCombined(shape, s, EditorialReader(c, kind))
    else if kind == c.media then UncachedCombined(shape, s, MediaReader(c))
    else if kind == c.course then UncachedCombined(shape, s, CourseReader(c))
    else Some(ReleaseRecords(shape, s, s.active, kind))
  }

  /** The kind is dispatched to the profiles. */
  predicate IsPeopleKind(c: Config, kind: Kind) {
    kind !in c.moved && kind !in c.single && kind == c.people
  }

  // ---- what a read answers ----

  // Stated on the rows of the store, without the functions above.

  /** The source is enabled and has a row. */
  ghost predicate IsLive(s: Store, source: Source) {
    source in s.enabled && exists id :: id in s.rows && s.rows[id].value.source == source
  }

  /** The keys and records of the published rows of the source and kind. */
  ghost predicate Selects(s: Store, source: Source, kind: Kind, rows: set<(string, Record)>) {
    forall key, record :: (key, record) in rows <==> exists id :: id in s.rows && s.rows[id].value == Row(source, kind, key, record, true)
  }

  /** A live source answers with what is built of its published rows of the kind, any other with nothing. */
  ghost predicate IsSourceAnswer(shape: Shape, s: Store, source: Source, kind: Kind, r: Option<seq<Record>>) {
    if IsLive(s, source) then exists rows :: Selects(s, source, kind, rows) && r == shape.build(kind, rows) else r == Some([])
  }

  /** The parts answer these, one for one. */
  ghost predicate ArePartAnswers(shape: Shape, s: Store, parts: seq<(Source, Kind)>, held: seq<seq<Record>>) {
    |held| == |parts| && forall i :: 0 <= i < |parts| ==> IsSourceAnswer(shape, s, parts[i].0, parts[i].1, Some(held[i]))
  }

  ghost predicate PartRefuses(shape: Shape, s: Store, parts: seq<(Source, Kind)>) {
    exists i :: 0 <= i < |parts| && IsSourceAnswer(shape, s, parts[i].0, parts[i].1, None)
  }

  ghost predicate IsCombinedAnswer(shape: Shape, s: Store, kind: Kind, parts: seq<(Source, Kind)>, r: Option<seq<Record>>) {
    || (r == None && PartRefuses(shape, s, parts))
    || exists held :: ArePartAnswers(shape, s, parts, held) && r == shape.combine(kind, held)
  }

  /** Every event with its row and its credit. */
  ghost predicate AreCredits(s: Store, credits: map<Id, (Cell<Row>, Credit)>) {
    credits.Keys == s.events.Keys && forall id :: id in credits ==> credits[id].0 == s.events[id] && IsCredit(s.related, id, credits[id].1)
  }

  ghost predicate IsPeopleAnswer(shape: Shape, s: Store, parts: seq<(Source, Kind)>, r: Option<seq<Record>>) {
    || (r == None && PartRefuses(shape, s, parts))
    || exists held, credits :: ArePartAnswers(shape, s, parts, held) && AreCredits(s, credits) && r == shape.profiles(held, credits)
  }

  /** A published event is linked to a host with a reference. */
  ghost predicate HasNamedSpeaker(s: Store) {
    exists l :: && l in s.related.links
                && s.related.links[l].event in s.events && s.events[s.related.links[l].event].value.published
                && s.related.links[l].host in s.related.hosts && s.related.hosts[s.related.links[l].host].value.reference != ""
  }

  /** Every event with its record, and the people when a speaker has to be looked up among them. */
  ghost predicate IsEventsAnswer(shape: Shape, c: Config, s: Store, r: Option<EventAnswer>) {
    if HasNamedSpeaker(s) && IsSourceAnswer(shape, s, c.peopleSource, c.people, None) then r == None
    else
      && r.Some? && r.value.records.Keys == s.events.Keys
      && (forall id :: id in s.events ==> IsEventRecord(s, id, r.value.records[id]))
      && if HasNamedSpeaker(s) then IsSourceAnswer(shape, s, c.peopleSource, c.people, Some(r.value.people)) else r.value.people == []
  }

  /** The published documents of the kind in the release; the empty release has none. */
  ghost predicate IsReleaseAnswer(shape: Shape, s: Store, release: string, kind: Kind, r: seq<Record>) {
    if release in s.releases
    then exists documents :: r == shape.arrange(documents)
                             && forall d :: d in documents <==> d in s.releases[release] && d.kind == kind && d.published
    else r == []
  }

  /** What a catalogue read answers, kind by kind. */
  ghost predicate IsAnswer(shape: Shape, c: Config, s: Store, kind: Kind, r: Option<seq<Record>>) {
    if kind in c.moved then r == Some([])
    else if kind in c.single then IsSourceAnswer(shape, s, c.single[kind], kind, r)
    else if kind == c.people then
      if !IsLive(s, c.peopleSource) then r == Some([])
      else exists parts :: && |parts| == |c.works| + 1 && parts[0] == (c.peopleSource, kind)
                           && (forall i :: 0 <= i < |c.works| ==> parts[i + 1] == (c.editorialSource, c.works[i]))
                           && IsPeopleAnswer(shape, s, parts, r)
    else if kind in c.editorial then
      if !IsLive(s, c.editorialSource) then r == Some([])
      else IsCombinedAnswer(shape, s, kind, [(c.editorialSource, kind), (c.peopleSource, c.people)], r)
    else if kind == c.media then IsCombinedAnswer(shape, s, kind, [(c.editorialSource, kind), (c.peopleSource, kind)], r)
    else if kind == c.course then
      exists parts :: |parts| == |c.courseSources| && (forall i :: 0 <= i < |parts| ==> parts[i] == (c.courseSources[i], kind))
                      && IsCombinedAnswer(shape, s, kind, parts, r)
    else r.Some? && IsReleaseAnswer(shape, s, s.active, kind, r.value)
  }

  lemma StampOfLive(s: Store, source: Source)
    ensures SyncedStamp(s, source).count > 0 <==> IsLive(s, source)
  {
    var rows := RowsOf(s, source);
    assert |rows| > 0 <==> rows.Keys != {};
    if IsLive(s, source) {
      var id :| id in s.rows && s.rows[id].value.source == source;
      assert id in rows;
    }
    if rows != map[] {
      var id :| id in rows;
      assert id in s.rows && s.rows[id].value.source == source;
    }
  }

  /** The rows selected, and so the answer of a source, are determined. */
  lemma SelectsPublished(s: Store, source: Source, kind: Kind, rows: set<(string, Record)>)
    ensures Selects(s, source, kind, rows) <==> rows == Published(RowsOf(s, source), kind)
  {
    PublishedIs(s, source, kind);
    var published := Published(RowsOf(s, source), kind);
    if Selects(s, source, kind, rows) {
      forall x: (string, Record) ensures x in rows <==> x in published { assert x == (x.0, x.1); }
    }
  }

  lemma PublishedIs(s: Store, source: Source, kind: Kind)
    ensures Selects(s, source, kind, Published(RowsOf(s, source), kind))
  {
    var rows := RowsOf(s, source);
    forall key, record
      ensures (key, record) in Published(rows, kind) <==> exists id :: id in s.rows && s.rows[id].value == Row(source, kind, key, record, true)
    {
      if id :| id in s.rows && s.rows[id].value == Row(source, kind, key, record, true) {
        assert id in rows && rows[id].value.kind == kind && rows[id].value.published;
      }
    }
  }

  /** A read of one source answers with its published rows of the kind. */
  lemma SourceAnswerIff(shape: Shape, s: Store, source: Source, kind: Kind, r: Option<seq<Record>>)
    ensures IsSourceAnswer(shape, s, source, kind, r) <==> r == UncachedRecords(shape, s, source, kind)
  {
    StampOfLive(s, source);
    forall rows ensures Selects(s, source, kind, rows) <==> rows == Published(RowsOf(s, source), kind) {
      SelectsPublished(s, source, kind, rows);
    }
  }

  lemma {:induction false} PartAnswers(shape: Shape, s: Store, parts: seq<(Source, Kind)>)
    ensures match UncachedParts(shape, s, parts)
            case None => PartRefuses(shape, s, parts)
            case Some(held) => ArePartAnswers(shape, s, parts, held)
  {
    if parts != [] {
      var n := |parts| - 1;
      PartAnswers(shape, s, parts[..n]);
      SourceAnswerIff(shape, s, parts[n].0, parts[n].1, UncachedRecords(shape, s, parts[n].0, parts[n].1));
      if UncachedParts(shape, s, parts[..n]).None? {
        var i :| 0 <= i < n && IsSourceAnswer(shape, s, parts[..n][i].0, parts[..n][i].1, None);
        assert parts[i] == parts[..n][i];
      }
    }
  }

  lemma CombinedAnswer(shape: Shape, s: Store, reader: Reader)
    requires reader.guarded && reader.parts != [] ==> IsLive(s, reader.parts[0].0)
    ensures IsCombinedAnswer(shape, s, reader.kind, reader.parts, UncachedCombined(shape, s, reader))
  {
    PartAnswers(shape, s, reader.parts);
    if reader.guarded && reader.parts != [] { StampOfLive(s, reader.parts[0].0); }
  }

  lemma PeopleAnswer(shape: Shape, c: Config, s: Store)
    requires IsLive(s, c.peopleSource)
    ensures IsPeopleAnswer(shape, s, PeopleParts(c), UncachedPeople(shape, c, s))
  {
    StampOfLive(s, c.peopleSource);
    PartAnswers(shape, s, PeopleParts(c));
    forall id | id in s.events ensures IsCredit(s.related, id, Credited(s)[id].1) { CreditIs(s.related, id); }
    assert AreCredits(s, Credited(s));
  }

  lemma NamesSpeakersIff(s: Store)
    ensures NamesSpeakers(EventRecords(s)) <==> HasNamedSpeaker(s)
  {
    var records := EventRecords(s);
    if HasNamedSpeaker(s) {
      var l :| && l in s.related.links
               && s.related.links[l].event in s.events && s.events[s.related.links[l].event].value.published
               && s.related.links[l].host in s.related.hosts && s.related.hosts[s.related.links[l].host].value.reference != "";
      var link := s.related.links[l];
      var x := Speaker(l, link.position, s.related.hosts[link.host].value);
      CreditIs(s.related, link.event);
      assert x in records[link.event].credit.speakers;
    }
    if NamesSpeakers(records) {
      var id :| id in records && records[id].row.value.published
                && exists x :: x in records[id].credit.speakers && x.host.reference != "";
      var x :| x in records[id].credit.speakers && x.host.reference != "";
      CreditIs(s.related, id);
      assert x == Speaker(x.link, x.position, x.host);
      assert x.link in s.related.links && s.related.links[x.link].event == id;
    }
  }

  lemma EventsAnswer(shape: Shape, c: Config, s: Store)
    ensures IsEventsAnswer(shape, c, s, UncachedEvents(shape, c, s))
  {
    NamesSpeakersIff(s);
    RecordsAre(s);
    forall r ensures IsSourceAnswer(shape, s, c.peopleSource, c.people, r) <==> r == UncachedRecords(shape, s, c.peopleSource, c.people) {
      SourceAnswerIff(shape, s, c.peopleSource, c.people, r);
    }
  }

  lemma ReleaseAnswer(shape: Shape, s: Store, release: string, kind: Kind)
    ensures IsReleaseAnswer(shape, s, release, kind, ReleaseRecords(shape, s, release, kind))
  {
    if release in s.releases {
      var documents := OfKind(s.releases[release], kind);
      assert forall d :: d in documents <==> d in s.releases[release] && d.kind == kind && d.published;
    }
  }

  /** The fresh read of every kind answers what it should. */
  lemma UncachedAnswers(shape: Shape, c: Config, s: Store, kind: Kind)
    ensures IsAnswer(shape, c, s, kind, Uncached(shape, c, s, kind))
  {
    if kind in c.moved {
    } else if kind in c.single {
      SourceAnswerIff(shape, s, c.single[kind], kind, UncachedRecords(shape, s, c.single[kind], kind));
    } else if kind == c.people {
      PeopleAnswers(shape, c, s);
    } else if kind in c.editorial {
      StampOfLive(s, c.editorialSource);
      if IsLive(s, c.editorialSource) { CombinedAnswer(shape, s, EditorialReader(c, kind)); }
    } else if kind == c.media {
      CombinedAnswer(shape, s, MediaReader(c));
    } else if kind == c.course {
      CombinedAnswer(shape, s, CourseReader(c));
    } else {
      ReleaseAnswer(shape, s, s.active, kind);
    }
  }

  lemma PeopleAnswers(shape: Shape, c: Config, s: Store)
    requires IsPeopleKind(c, c.people)
    ensures IsAnswer(shape, c, s, c.people, UncachedPeople(shape, c, s))
  {
    StampOfLive(s, c.peopleSource);
    if IsLive(s, c.peopleSource) {
      PeopleAnswer(shape, c, s);
      var parts := PeopleParts(c);
      assert |parts| == |c.works| + 1 && parts[0] == (c.peopleSource, c.people);
      assert forall i :: 0 <= i < |c.works| ==> parts[i + 1] == (c.editorialSource, c.works[i]);
    }
  }

  /** A change to rows that are not published, before and after, shows in no answer while the source stays live. */
  lemma DraftsDoNotShow(shape: Shape, s: Store, e: Event, source: Source, kind: Kind)
    requires IsLive(s, source) && IsLive(Step(s, e), source)
    requires (e.Write? && forall id :: id in e.puts ==> !e.puts[id].published && (id in s.rows ==> !s.rows[id].value.published))
             || (e.Delete? && forall id :: id in e.gone && id in s.rows ==> !s.rows[id].value.published)
    ensures UncachedRecords(shape, Step(s, e), source, kind) == UncachedRecords(shape, s, source, kind)
  {
    var t := Step(s, e);
    PublishedIs(s, source, kind);
    var rows := Published(RowsOf(s, source), kind);
    forall row: Row, id | row.published ensures id in s.rows && s.rows[id].value == row <==> id in t.rows && t.rows[id].value == row {}
    assert Selects(t, source, kind, rows);
    SelectsPublished(t, source, kind, rows);
    StampOfLive(s, source);
    StampOfLive(t, source);
  }

  // ---- keys ----

  datatype SyncedKey = SyncedKey(stamp: Stamp, source: Source, kind: Kind)

  datatype CombinedKey = CombinedKey(kind: Kind, stamps: seq<Stamp>)

  datatype PeopleKey = PeopleKey(people: Stamp, editorial: Stamp, events: Stamp)

  ghost function PeopleKeyOf(c: Config, s: Store): PeopleKey {
    PeopleKey(SyncedStamp(s, c.peopleSource), SyncedStamp(s, c.editorialSource), EventStamp(s))
  }

  datatype EventsKey = EventsKey(tables: TableStamps, people: Stamp)

  ghost function EventsKeyOf(c: Config, s: Store): EventsKey {
    EventsKey(TableStampsOf(s), SyncedStamp(s, c.peopleSource))
  }

  ghost function StampsOf(s: Store, parts: seq<(Source, Kind)>): (r: seq<Stamp>)
    ensures |r| == |parts| && forall i :: 0 <= i < |parts| ==> r[i] == SyncedStamp(s, parts[i].0)
  {
    seq(|parts|, i requires 0 <= i < |parts| => SyncedStamp(s, parts[i].0))
  }

  // ---- entries that are true for ever ----

  /** Whenever the entry's key comes up, now or later, its answer is what a fresh read gives. */
  ghost predicate IsTrue(shape: Shape, s: Store, e: Entry<SyncedKey, seq<Record>>) {
    forall t :: Future(s, t) && SyncedStamp(t, e.key.source) == e.key.stamp
                ==> UncachedRecords(shape, t, e.key.source, e.key.kind) == Some(e.answer)
  }

  ghost predicate IsTrueFor(shape: Shape, s: Store, reader: Reader, e: Entry<CombinedKey, seq<Record>>) {
    forall t :: Future(s, t) && StampsOf(t, reader.parts) == e.key.stamps
                ==> UncachedCombined(shape, t, reader) == Some(e.answer)
  }

  /** The same while new and changed relations take new marks. */
  ghost predicate IsEventsTrue(shape: Shape, c: Config, s: Store, e: Entry<EventsKey, EventAnswer>) {
    forall t :: MarkedFuture(s, t) && EventsKeyOf(c, t) == e.key ==> UncachedEvents(shape, c, t) == Some(e.answer)
  }

  /** The same while the rule about credits is kept. */
  ghost predicate IsPeopleTrue(shape: Shape, c: Config, s: Store, e: Entry<PeopleKey, seq<Record>>) {
    forall t :: KeptFuture(s, t) && PeopleKeyOf(c, t) == e.key ==> UncachedPeople(shape, c, t) == Some(e.answer)
  }

  ghost predicate IsReleaseTrue(shape: Shape, s: Store, e: Entry<(string, Kind), seq<Record>>) {
    forall t :: Future(s, t) ==> ReleaseRecords(shape, t, e.key.0, e.key.1) == e.answer
  }

  /** Equal stamps give equal answers. */
  lemma SameStampSameRecords(shape: Shape, s: Store, t: Store, source: Source, kind: Kind)
    requires IsStore(s) && Future(s, t) && SyncedStamp(s, source) == SyncedStamp(t, source)
    ensures UncachedRecords(shape, s, source, kind) == UncachedRecords(shape, t, source, kind)
  {
    if SyncedStamp(s, source).count > 0 { EqualStampsEqualRows(s, t, source); }
  }

  lemma {:induction false} SameStampsSameParts(shape: Shape, s: Store, t: Store, parts: seq<(Source, Kind)>)
    requires IsStore(s) && Future(s, t) && StampsOf(s, parts) == StampsOf(t, parts)
    ensures UncachedParts(shape, s, parts) == UncachedParts(shape, t, parts)
  {
    if parts != [] {
      var older, n := parts[..|parts| - 1], |parts| - 1;
      assert forall i :: 0 <= i < |parts| ==> SyncedStamp(s, parts[i].0) == StampsOf(s, parts)[i] == SyncedStamp(t, parts[i].0);
      assert StampsOf(s, older) == StampsOf(t, older);
      SameStampsSameParts(shape, s, t, older);
      SameStampSameRecords(shape, s, t, parts[n].0, parts[n].1);
    }
  }

  lemma SameStampsSameCombined(shape: Shape, s: Store, t: Store, reader: Reader)
    requires IsStore(s) && Future(s, t) && StampsOf(s, reader.parts) == StampsOf(t, reader.parts)
    ensures UncachedCombined(shape, s, reader) == UncachedCombined(shape, t, reader)
  {
    SameStampsSameParts(shape, s, t, reader.parts);
    if reader.parts != [] { assert StampsOf(s, reader.parts)[0] == StampsOf(t, reader.parts)[0]; }
  }

  /** While the rule about marks is kept, equal stamps of all tables and of the people give equal event records. */
  lemma SameKeySameEvents(shape: Shape, c: Config, s: Store, t: Store)
    requires IsStore(s) && MarkedFuture(s, t) && EventsKeyOf(c, s) == EventsKeyOf(c, t)
    ensures UncachedEvents(shape, c, s) == UncachedEvents(shape, c, t)
  {
    MarkedIsFuture(s, t);
    EqualStampsEqualTables(s, t);
    SameStampSameRecords(shape, s, t, c.peopleSource, c.people);
  }

  lemma NewEventsAreTrue(shape: Shape, c: Config, s: Store, answer: EventAnswer)
    requires IsStore(s) && UncachedEvents(shape, c, s) == Some(answer)
    ensures IsEventsTrue(shape, c, s, Entry(EventsKeyOf(c, s), answer))
  {
    forall t | MarkedFuture(s, t) && EventsKeyOf(c, t) == EventsKeyOf(c, s) ensures UncachedEvents(shape, c, t) == Some(answer) {
      SameKeySameEvents(shape, c, s, t);
    }
  }

  lemma EventsStayTrue(shape: Shape, c: Config, s: Store, event: Event, e: Entry<EventsKey, EventAnswer>)
    requires Allowed(s, event) && KeepsMarks(s, event) && IsEventsTrue(shape, c, s, e)
    ensures IsEventsTrue(shape, c, Step(s, event), e)
  {
    forall t | MarkedFuture(Step(s, event), t) ensures MarkedFuture(s, t) { MarkedStepIsEarlier(s, event, t); }
  }

  lemma SamePeopleStamps(c: Config, s: Store, t: Store)
    requires PeopleKeyOf(c, s) == PeopleKeyOf(c, t)
    ensures StampsOf(s, PeopleParts(c)) == StampsOf(t, PeopleParts(c))
  {
    var parts := PeopleParts(c);
    forall i | 0 <= i < |parts| ensures StampsOf(s, parts)[i] == StampsOf(t, parts)[i] {
      assert parts[i].0 == if i == 0 then c.peopleSource else c.editorialSource;
    }
  }

  /** While the rule about credits is kept, equal stamps of people, works and events give equal profiles. */
  lemma SameKeySamePeople(shape: Shape, c: Config, s: Store, t: Store)
    requires IsStore(s) && KeptFuture(s, t) && PeopleKeyOf(c, s) == PeopleKeyOf(c, t)
    ensures UncachedPeople(shape, c, s) == UncachedPeople(shape, c, t)
  {
    KeptIsFuture(s, t);
    SamePeopleStamps(c, s, t);
    SameStampsSameParts(shape, s, t, PeopleParts(c));
    EqualStampsEqualCredits(s, t);
  }

  lemma NewPeopleAreTrue(shape: Shape, c: Config, s: Store, answer: seq<Record>)
    requires IsStore(s) && UncachedPeople(shape, c, s) == Some(answer)
    ensures IsPeopleTrue(shape, c, s, Entry(PeopleKeyOf(c, s), answer))
  {
    forall t | KeptFuture(s, t) && PeopleKeyOf(c, t) == PeopleKeyOf(c, s) ensures UncachedPeople(shape, c, t) == Some(answer) {
      SameKeySamePeople(shape, c, s, t);
    }
  }

  lemma PeopleStayTrue(shape: Shape, c: Config, s: Store, event: Event, e: Entry<PeopleKey, seq<Record>>)
    requires Allowed(s, event) && KeepsCredits(s, event) && IsPeopleTrue(shape, c, s, e)
    ensures IsPeopleTrue(shape, c, Step(s, event), e)
  {
    forall t | KeptFuture(Step(s, event), t) ensures KeptFuture(s, t) { KeptStepIsEarlier(s, event, t); }
  }

  /**
   The rule is needed here too: where a silent change gives other profiles, a profile cached before it
   is wrong under its own key.
   */
  lemma SilentChangeIsServed(shape: Shape, c: Config, s: Store, event: Event, answer: seq<Record>)
    requires IsStore(s) && Allowed(s, event) && PeopleKeyOf(c, Step(s, event)) == PeopleKeyOf(c, s)
    requires UncachedPeople(shape, c, s) == Some(answer) && UncachedPeople(shape, c, Step(s, event)) != Some(answer)
    ensures !KeepsCredits(s, event)
    ensures !IsPeopleTrue(shape, c, Step(s, event), Entry(PeopleKeyOf(c, s), answer))
  {
    var t := Step(s, event);
    NowIsKept(t);
    if KeepsCredits(s, event) {
      KeptStepIsEarlier(s, event, t);
      SameKeySamePeople(shape, c, s, t);
    }
  }

  /** An answer read now is true for ever under its stamp. */
  lemma NewEntryIsTrue(shape: Shape, s: Store, source: Source, kind: Kind, answer: seq<Record>)
    requires IsStore(s) && UncachedRecords(shape, s, source, kind) == Some(answer)
    ensures IsTrue(shape, s, Entry(SyncedKey(SyncedStamp(s, source), source, kind), answer))
  {
    forall t | Future(s, t) && SyncedStamp(t, source) == SyncedStamp(s, source)
      ensures UncachedRecords(shape, t, source, kind) == Some(answer)
    {
      SameStampSameRecords(shape, s, t, source, kind);
    }
  }

  lemma NewCombinedIsTrue(shape: Shape, s: Store, reader: Reader, answer: seq<Record>)
    requires IsStore(s) && UncachedCombined(shape, s, reader) == Some(answer)
    ensures IsTrueFor(shape, s, reader, Entry(CombinedKey(reader.kind, StampsOf(s, reader.parts)), answer))
  {
    forall t | Future(s, t) && StampsOf(t, reader.parts) == StampsOf(s, reader.parts)
      ensures UncachedCombined(shape, t, reader) == Some(answer)
    {
      SameStampsSameCombined(shape, s, t, reader);
    }
  }

  lemma NewReleaseIsTrue(shape: Shape, s: Store, release: string, kind: Kind)
    requires release in s.releases
    ensures IsReleaseTrue(shape, s, Entry((release, kind), ReleaseRecords(shape, s, release, kind)))
  {
    forall t | Future(s, t) ensures ReleaseRecords(shape, t, release, kind) == ReleaseRecords(shape, s, release, kind) {
      var events :| AllAllowed(s, events) && Run(s, events) == t;
      ReleasesStay(s, events, release);
    }
  }

  /** What is true for ever stays so. */
  lemma StaysTrue(shape: Shape, s: Store, event: Event, e: Entry<SyncedKey, seq<Record>>)
    requires Allowed(s, event) && IsTrue(shape, s, e)
    ensures IsTrue(shape, Step(s, event), e)
  {
    forall t | Future(Step(s, event), t) ensures Future(s, t) { StepIsEarlier(s, event, t); }
  }

  lemma CombinedStaysTrue(shape: Shape, s: Store, event: Event, reader: Reader, e: Entry<CombinedKey, seq<Record>>)
    requires Allowed(s, event) && IsTrueFor(shape, s, reader, e)
    ensures IsTrueFor(shape, Step(s, event), reader, e)
  {
    forall t | Future(Step(s, event), t) ensures Future(s, t) { StepIsEarlier(s, event, t); }
  }

  lemma ReleaseStaysTrue(shape: Shape, s: Store, event: Event, e: Entry<(string, Kind), seq<Record>>)
    requires Allowed(s, event) && IsReleaseTrue(shape, s, e)
    ensures IsReleaseTrue(shape, Step(s, event), e)
  {
    forall t | Future(Step(s, event), t) ensures Future(s, t) { StepIsEarlier(s, event, t); }
  }

  // ---- cache contents ----

  ghost predicate AllTrue(shape: Shape, s: Store, entries: seq<Entry<SyncedKey, seq<Record>>>) {
    forall e :: e in entries ==> IsTrue(shape, s, e)
  }

  ghost predicate AllTrueFor(shape: Shape, s: Store, reader: Kind -> Reader, entries: seq<Entry<CombinedKey, seq<Record>>>) {
    forall e :: e in entries ==> IsTrueFor(shape, s, reader(e.key.kind), e)
  }

  ghost predicate AllPeopleTrue(shape: Shape, c: Config, s: Store, entries: seq<Entry<PeopleKey, seq<Record>>>) {
    forall e :: e in entries ==> IsPeopleTrue(shape, c, s, e)
  }

  ghost predicate AllEventsTrue(shape: Shape, c: Config, s: Store, entries: seq<Entry<EventsKey, EventAnswer>>) {
    forall e :: e in entries ==> IsEventsTrue(shape, c, s, e)
  }

  ghost predicate AllReleasesTrue(shape: Shape, s: Store, entries: seq<Entry<(string, Kind), seq<Record>>>) {
    forall e :: e in entries ==> IsReleaseTrue(shape, s, e)
  }

  lemma AllStayTrue(shape: Shape, s: Store, event: Event, entries: seq<Entry<SyncedKey, seq<Record>>>)
    requires Allowed(s, event) && AllTrue(shape, s, entries)
    ensures AllTrue(shape, Step(s, event), entries)
  {
    forall e | e in entries ensures IsTrue(shape, Step(s, event), e) { StaysTrue(shape, s, event, e); }
  }

  lemma AllStayTrueFor(shape: Shape, s: Store, event: Event, reader: Kind -> Reader, entries: seq<Entry<CombinedKey, seq<Record>>>)
    requires Allowed(s, event) && AllTrueFor(shape, s, reader, entries)
    ensures AllTrueFor(shape, Step(s, event), reader, entries)
  {
    forall e | e in entries ensures IsTrueFor(shape, Step(s, event), reader(e.key.kind), e) {
      CombinedStaysTrue(shape, s, event, reader(e.key.kind), e);
    }
  }

  lemma AllPeopleStayTrue(shape: Shape, c: Config, s: Store, event: Event, entries: seq<Entry<PeopleKey, seq<Record>>>)
    requires Allowed(s, event) && KeepsCredits(s, event) && AllPeopleTrue(shape, c, s, entries)
    ensures AllPeopleTrue(shape, c, Step(s, event), entries)
  {
    forall e | e in entries ensures IsPeopleTrue(shape, c, Step(s, event), e) { PeopleStayTrue(shape, c, s, event, e); }
  }

  lemma AllEventsStayTrue(shape: Shape, c: Config, s: Store, event: Event, entries: seq<Entry<EventsKey, EventAnswer>>)
    requires Allowed(s, event) && KeepsMarks(s, event) && AllEventsTrue(shape, c, s, entries)
    ensures AllEventsTrue(shape, c, Step(s, event), entries)
  {
    forall e | e in entries ensures IsEventsTrue(shape, c, Step(s, event), e) { EventsStayTrue(shape, c, s, event, e); }
  }

  lemma AllReleasesStayTrue(shape: Shape, s: Store, event: Event, entries: seq<Entry<(string, Kind), seq<Record>>>)
    requires Allowed(s, event) && AllReleasesTrue(shape, s, entries)
    ensures AllReleasesTrue(shape, Step(s, event), entries)
  {
    forall e | e in entries ensures IsReleaseTrue(shape, Step(s, event), e) { ReleaseStaysTrue(shape, s, event, e); }
  }

  lemma EventsHit(shape: Shape, c: Config, s: Store, entries: seq<Entry<EventsKey, EventAnswer>>, answer: EventAnswer)
    requires Entry(EventsKeyOf(c, s), answer) in entries && AllEventsTrue(shape, c, s, entries)
    ensures UncachedEvents(shape, c, s) == Some(answer)
    ensures AllEventsTrue(shape, c, s, Touched(entries, EventsKeyOf(c, s), answer))
  {
    NowIsMarked(s);
    assert IsEventsTrue(shape, c, s, Entry(EventsKeyOf(c, s), answer));
  }

  lemma EventsMiss(shape: Shape, c: Config, s: Store, entries: seq<Entry<EventsKey, EventAnswer>>, answer: EventAnswer)
    requires IsStore(s) && |entries| <= EVENTS_SIZE && AllEventsTrue(shape, c, s, entries)
    requires UncachedEvents(shape, c, s) == Some(answer)
    ensures AllEventsTrue(shape, c, s, Stored(entries, EventsKeyOf(c, s), answer, EVENTS_SIZE))
  {
    NewEventsAreTrue(shape, c, s, answer);
  }

  lemma PeopleHit(shape: Shape, c: Config, s: Store, entries: seq<Entry<PeopleKey, seq<Record>>>, answer: seq<Record>)
    requires Entry(PeopleKeyOf(c, s), answer) in entries && AllPeopleTrue(shape, c, s, entries)
    ensures UncachedPeople(shape, c, s) == Some(answer)
    ensures AllPeopleTrue(shape, c, s, Touched(entries, PeopleKeyOf(c, s), answer))
  {
    NowIsKept(s);
    assert IsPeopleTrue(shape, c, s, Entry(PeopleKeyOf(c, s), answer));
  }

  lemma PeopleMiss(shape: Shape, c: Config, s: Store, entries: seq<Entry<PeopleKey, seq<Record>>>, answer: seq<Record>)
    requires IsStore(s) && |entries| <= PAIR_SIZE && AllPeopleTrue(shape, c, s, entries)
    requires UncachedPeople(shape, c, s) == Some(answer)
    ensures AllPeopleTrue(shape, c, s, Stored(entries, PeopleKeyOf(c, s), answer, PAIR_SIZE))
  {
    NewPeopleAreTrue(shape, c, s, answer);
  }

  function EditorialReaders(c: Config): Kind -> Reader {
    (kind: Kind) => EditorialReader(c, kind)
  }

  function Always(reader: Reader): Kind -> Reader {
    (kind: Kind) => reader
  }

  /** The entries kept under stamps of rows and under releases are all true for ever. */
  ghost predicate HoldsTruth(shape: Shape, c: Config, s: Store, synced: seq<Entry<SyncedKey, seq<Record>>>,
                             editorial: seq<Entry<CombinedKey, seq<Record>>>, media: seq<Entry<CombinedKey, seq<Record>>>,
                             courses: seq<Entry<CombinedKey, seq<Record>>>, released: seq<Entry<(string, Kind), seq<Record>>>) {
    && IsStore(s)
    && AllTrue(shape, s, synced)
    && AllTrueFor(shape, s, EditorialReaders(c), editorial)
    && AllTrueFor(shape, s, Always(MediaReader(c)), media)
    && AllTrueFor(shape, s, Always(CourseReader(c)), courses)
    && AllReleasesTrue(shape, s, released)
  }

  lemma TruthStays(shape: Shape, c: Config, s: Store, e: Event, synced: seq<Entry<SyncedKey, seq<Record>>>,
                   editorial: seq<Entry<CombinedKey, seq<Record>>>, media: seq<Entry<CombinedKey, seq<Record>>>,
                   courses: seq<Entry<CombinedKey, seq<Record>>>, released: seq<Entry<(string, Kind), seq<Record>>>)
    requires Allowed(s, e) && HoldsTruth(shape, c, s, synced, editorial, media, courses, released)
    ensures HoldsTruth(shape, c, Step(s, e), synced, editorial, media, courses, released)
  {
    StepKeepsStore(s, e);
    AllStayTrue(shape, s, e, synced);
    AllStayTrueFor(shape, s, e, EditorialReaders(c), editorial);
    AllStayTrueFor(shape, s, e, Always(MediaReader(c)), media);
    AllStayTrueFor(shape, s, e, Always(CourseReader(c)), courses);
    AllReleasesStayTrue(shape, s, e, released);
  }

  const SYNCED_SIZE: nat := 16
  const EDITORIAL_SIZE: nat := 8
  const EVENTS_SIZE: nat := 8
  const PAIR_SIZE: nat := 2
  const RELEASE_SIZE: nat := 64

  class Catalogue {
    const shape: Shape
    const config: Config
    var store: Store
    var synced: seq<Entry<SyncedKey, seq<Record>>>
    var editorial: seq<Entry<CombinedKey, seq<Record>>>
    var people: seq<Entry<PeopleKey, seq<Record>>>
    var events: seq<Entry<EventsKey, EventAnswer>>
    var media: seq<Entry<CombinedKey, seq<Record>>>
    var courses: seq<Entry<CombinedKey, seq<Record>>>
    var released: seq<Entry<(string, Kind), seq<Record>>>

    /** Every cache but those of the event records and the profiles holds only entries that are true for ever. */
    ghost predicate Valid()
      reads this
    {
      && |synced| <= SYNCED_SIZE && |editorial| <= EDITORIAL_SIZE && |people| <= PAIR_SIZE && |events| <= EVENTS_SIZE
      && |media| <= PAIR_SIZE && |courses| <= PAIR_SIZE && |released| <= RELEASE_SIZE
      && HoldsTruth(shape, config, store, synced, editorial, media, courses, released)
    }

    /** So does the cache of the event records, as long as the rule about marks is kept. */
    ghost predicate EventsValid()
      reads this
    {
      AllEventsTrue(shape, config, store, events)
    }

    /** So does the cache of the profiles, as long as the rule about credits is kept. */
    ghost predicate PeopleValid()
      reads this
    {
      AllPeopleTrue(shape, config, store, people)
    }

    constructor (shape: Shape, config: Config)
      ensures Valid() && EventsValid() && PeopleValid() && store == EMPTY && this.shape == shape && this.config == config
    {
      this.shape, this.config, store := shape, config, EMPTY;
      synced, editorial, people, events, media, courses, released := [], [], [], [], [], [], [];
    }

    /** The database changes; no cache is told. */
    method Change(e: Event)
      requires Valid() && Allowed(store, e)
      modifies this`store
      ensures Valid() && store == Step(old(store), e)
      ensures old(EventsValid()) && KeepsMarks(old(store), e) ==> EventsValid()
      ensures old(PeopleValid()) && KeepsCredits(old(store), e) ==> PeopleValid()
    {
      TruthStays(shape, config, store, e, synced, editorial, media, courses, released);
      if EventsValid() && KeepsMarks(store, e) { AllEventsStayTrue(shape, config, store, e, events); }
      if PeopleValid() && KeepsCredits(store, e) { AllPeopleStayTrue(shape, config, store, e, people); }
      store := Step(store, e);
    }

    /** The records of one source, remembered under its stamp. */
    method SyncedRecords(stamp: Stamp, source: Source, kind: Kind) returns (r: Option<seq<Record>>)
      requires Valid() && stamp == SyncedStamp(store, source)
      modifies this`synced
      ensures Valid() && r == UncachedRecords(shape, store, source, kind)
      ensures IsSourceAnswer(shape, store, source, kind, r)
    {
      SourceAnswerIff(shape, store, source, kind, UncachedRecords(shape, store, source, kind));
      var key := SyncedKey(stamp, source, kind);
      var found := Find(synced, key);
      if found.Some? {
        NowIsFuture(store);
        assert IsTrue(shape, store, Entry(key, found.value));
        synced := Touched(synced, key, found.value);
        return found;
      }
      r := if stamp.count == 0 then Some([]) else shape.build(kind, Published(RowsOf(store, source), kind));
      if r.Some? {
        NewEntryIsTrue(shape, store, source, kind, r.value);
        synced := Stored(synced, key, r.value, SYNCED_SIZE);
      }
    }

    /** An absent people source answers without the cache. */
    method ReadPeople() returns (r: Option<seq<Record>>)
      requires Valid()
      modifies this`synced, this`events, this`people
      ensures Valid() && (old(EventsValid()) ==> EventsValid())
      ensures old(EventsValid() && PeopleValid()) ==> PeopleValid() && r == UncachedPeople(shape, config, store)
    {
      var peopleStamp := ReadStamp(store, config.peopleSource);
      if peopleStamp.count == 0 {
        return Some([]);
      }
      var editorialStamp := ReadStamp(store, config.editorialSource);
      var eventStamp := Aggregate(store.events);
      r := People(PeopleKey(peopleStamp, editorialStamp, eventStamp));
    }

    method StampsNow(parts: seq<(Source, Kind)>) returns (stamps: seq<Stamp>)
      ensures stamps == StampsOf(store, parts)
    {
      stamps := [];
      for i := 0 to |parts|
        invariant |stamps| == i && forall j :: 0 <= j < i ==> stamps[j] == SyncedStamp(store, parts[j].0)
      {
        var stamp := ReadStamp(store, parts[i].0);
        stamps := stamps + [stamp];
      }
    }

    /** The answers of several sources in turn. */
    method Parts(parts: seq<(Source, Kind)>, stamps: seq<Stamp>) returns (r: Option<seq<seq<Record>>>)
      requires Valid() && stamps == StampsOf(store, parts)
      modifies this`synced
      ensures Valid() && r == UncachedParts(shape, store, parts)
    {
      var held: seq<seq<Record>> := [];
      for i := 0 to |parts|
        invariant Valid() && UncachedParts(shape, store, parts[..i]) == Some(held)
      {
        var records := SyncedRecords(stamps[i], parts[i].0, parts[i].1);
        assert parts[..i + 1][..i] == parts[..i];
        if records.None? {
          RefusedPart(shape, store, parts, i);
          return None;
        }
        held := held + [records.value];
      }
      assert parts[..|parts|] == parts;
      return Some(held);
    }

    /** A combined answer composed from the answers of its sources. */
    method Combine(reader: Reader, stamps: seq<Stamp>) returns (r: Option<seq<Record>>)
      requires Valid() && stamps == StampsOf(store, reader.parts)
      modifies this`synced
      ensures Valid() && r == UncachedCombined(shape, store, reader)
    {
      if reader.guarded && stamps != [] && stamps[0].count == 0 {
        return Some([]);
      }
      var held := Parts(reader.parts, stamps);
      return if held.None? then None else shape.combine(reader.kind, held.value);
    }

    method Editorial(kind: Kind, stamps: seq<Stamp>) returns (r: Option<seq<Record>>)
      requires Valid() && stamps == StampsOf(store, EditorialReader(config, kind).parts)
      modifies this`synced, this`editorial
      ensures Valid() && r == UncachedCombined(shape, store, EditorialReader(config, kind))
    {
      var key := CombinedKey(kind, stamps);
      var found := Find(editorial, key);
      if found.Some? {
        NowIsFuture(store);
        assert IsTrueFor(shape, store, EditorialReaders(config)(kind), Entry(key, found.value));
        editorial := Touched(editorial, key, found.value);
        return found;
      }
      r := Combine(EditorialReader(config, kind), stamps);
      if r.Some? {
        NewCombinedIsTrue(shape, store, EditorialReader(config, kind), r.value);
        editorial := Stored(editorial, key, r.value, EDITORIAL_SIZE);
      }
    }

    /** The records of the published events, remembered under the stamps of all tables they are read from. */
    method PublishedEvents() returns (r: Option<EventAnswer>)
      requires Valid()
      modifies this`synced, this`events
      ensures Valid() && (old(EventsValid()) ==> EventsValid() && r == UncachedEvents(shape, config, store))
      ensures old(EventsValid()) ==> IsEventsAnswer(shape, config, store, r)
    {
      EventsAnswer(shape, config, store);
      var tables := ReadTableStamps(store);
      var peopleStamp := ReadStamp(store, config.peopleSource);
      r := EventsUnder(EventsKey(tables, peopleStamp));
    }

    method EventsUnder(key: EventsKey) returns (r: Option<EventAnswer>)
      requires Valid() && key == EventsKeyOf(config, store)
      modifies this`synced, this`events
      ensures Valid() && (old(EventsValid()) ==> EventsValid() && r == UncachedEvents(shape, config, store))
    {
      r := RecallEvents(key);
      if r.None? {
        r := RenewEvents(key);
      }
    }

    method RenewEvents(key: EventsKey) returns (r: Option<EventAnswer>)
      requires Valid() && key == EventsKeyOf(config, store)
      modifies this`synced, this`events
      ensures Valid() && r == UncachedEvents(shape, config, store) && (old(EventsValid()) ==> EventsValid())
    {
      r := BuildEvents(key.people);
      if r.Some? {
        KeepEvents(key, r.value);
      }
    }

    method RecallEvents(key: EventsKey) returns (r: Option<EventAnswer>)
      requires Valid() && key == EventsKeyOf(config, store)
      modifies this`events
      ensures Valid() && (old(EventsValid()) ==> EventsValid() && (r.Some? ==> r == UncachedEvents(shape, config, store)))
    {
      r := Find(events, key);
      if r.Some? {
        if EventsValid() { EventsHit(shape, config, store, events, r.value); }
        events := Touched(events, key, r.value);
      }
    }

    method KeepEvents(key: EventsKey, answer: EventAnswer)
      requires Valid() && key == EventsKeyOf(config, store) && UncachedEvents(shape, config, store) == Some(answer)
      modifies this`events
      ensures Valid() && (old(EventsValid()) ==> EventsValid())
    {
      if EventsValid() { EventsMiss(shape, config, store, events, answer); }
      events := Stored(events, key, answer, EVENTS_SIZE);
    }

    method BuildEvents(peopleStamp: Stamp) returns (r: Option<EventAnswer>)
      requires Valid() && peopleStamp == SyncedStamp(store, config.peopleSource)
      modifies this`synced
      ensures Valid() && r == UncachedEvents(shape, config, store)
    {
      var records := EventRecords(store);
      if !NamesSpeakers(records) {
        return Some(EventAnswer(records, []));
      }
      var held := SyncedRecords(peopleStamp, config.peopleSource, config.people);
      return if held.None? then None else Some(EventAnswer(records, held.value));
    }

    /** The profiles, remembered under the stamps of people, works and events. */
    method People(key: PeopleKey) returns (r: Option<seq<Record>>)
      requires Valid() && key == PeopleKeyOf(config, store)
      modifies this`synced, this`events, this`people
      ensures Valid() && (old(EventsValid()) ==> EventsValid())
      ensures old(EventsValid() && PeopleValid()) ==> PeopleValid() && r == UncachedPeople(shape, config, store)
    {
      var found := Find(people, key);
      if found.Some? {
        if PeopleValid() { PeopleHit(shape, config, store, people, found.value); }
        people := Touched(people, key, found.value);
        return found;
      }
      r := BuildPeople(key);
      if r.Some? {
        KeepPeople(key, r.value);
      }
    }

    method KeepPeople(key: PeopleKey, answer: seq<Record>)
      requires Valid() && key == PeopleKeyOf(config, store)
      modifies this`people
      ensures Valid() && (old(PeopleValid()) && UncachedPeople(shape, config, store) == Some(answer) ==> PeopleValid())
    {
      if PeopleValid() && UncachedPeople(shape, config, store) == Some(answer) { PeopleMiss(shape, config, store, people, answer); }
      people := Stored(people, key, answer, PAIR_SIZE);
    }

    /** A profile is derived from the remembered records of the events. */
    method BuildPeople(key: PeopleKey) returns (r: Option<seq<Record>>)
      requires Valid() && key == PeopleKeyOf(config, store)
      modifies this`synced, this`events
      ensures Valid() && (old(EventsValid()) ==> EventsValid() && r == UncachedPeople(shape, config, store))
    {
      if key.people.count == 0 {
        return Some([]);
      }
      var works := |config.works|;
      var stamps := [key.people] + seq(works, i => key.editorial);
      assert stamps == StampsOf(store, PeopleParts(config));
      var parts := Parts(PeopleParts(config), stamps);
      if parts.None? {
        return None;
      }
      FirstPartIsHeld(shape, store, PeopleParts(config));
      var answer := PublishedEvents();
      CreditsAreIn(store);
      return if answer.None? then None else shape.profiles(parts.value, CreditsIn(answer.value.records));
    }

    method Media(stamps: seq<Stamp>) returns (r: Option<seq<Record>>)
      requires Valid() && stamps == StampsOf(store, MediaReader(config).parts)
      modifies this`synced, this`media
      ensures Valid() && r == UncachedCombined(shape, store, MediaReader(config))
    {
      var key := CombinedKey(config.media, stamps);
      var found := Find(media, key);
      if found.Some? {
        NowIsFuture(store);
        assert IsTrueFor(shape, store, Always(MediaReader(config))(config.media), Entry(key, found.value));
        media := Touched(media, key, found.value);
        return found;
      }
      r := Combine(MediaReader(config), stamps);
      if r.Some? {
        NewCombinedIsTrue(shape, store, MediaReader(config), r.value);
        media := Stored(media, key, r.value, PAIR_SIZE);
      }
    }

    method Courses(stamps: seq<Stamp>) returns (r: Option<seq<Record>>)
      requires Valid() && stamps == StampsOf(store, CourseReader(config).parts)
      modifies this`synced, this`courses
      ensures Valid() && r == UncachedCombined(shape, store, CourseReader(config))
    {
      var key := CombinedKey(config.course, stamps);
      var found := Find(courses, key);
      if found.Some? {
        NowIsFuture(store);
        assert IsTrueFor(shape, store, Always(CourseReader(config))(config.course), Entry(key, found.value));
        courses := Touched(courses, key, found.value);
        return found;
      }
      r := Combine(CourseReader(config), stamps);
      if r.Some? {
        NewCombinedIsTrue(shape, store, CourseReader(config), r.value);
        courses := Stored(courses, key, r.value, PAIR_SIZE);
      }
    }

    /** The records of a release, remembered under its id. */
    method Released(release: string, kind: Kind) returns (r: seq<Record>)
      requires Valid() && (release == "" || release in store.releases)
      modifies this`released
      ensures Valid() && r == ReleaseRecords(shape, store, release, kind) && IsReleaseAnswer(shape, store, release, kind, r)
    {
      ReleaseAnswer(shape, store, release, kind);
      var key := (release, kind);
      var found := Find(released, key);
      if found.Some? {
        NowIsFuture(store);
        assert IsReleaseTrue(shape, store, Entry(key, found.value));
        released := Touched(released, key, found.value);
        return found.value;
      }
      r := if release == "" then [] else shape.arrange(OfKind(store.releases[release], kind));
      if release == "" { NoReleaseIsTrue(shape, store, kind); } else { NewReleaseIsTrue(shape, store, release, kind); }
      released := Stored(released, key, r, RELEASE_SIZE);
    }

    /**
     Every published record of a kind: whatever is cached, the answer is that of a fresh read. For
     the profiles that takes the rule about credits, for every other kind it does not.
     */
    method Records(kind: Kind) returns (r: Option<seq<Record>>)
      requires Valid()
      modifies this`synced, this`editorial, this`events, this`people, this`media, this`courses, this`released
      ensures Valid() && (old(EventsValid()) ==> EventsValid()) && (old(EventsValid() && PeopleValid()) ==> PeopleValid())
      ensures old(EventsValid() && PeopleValid()) || !IsPeopleKind(config, kind) ==>
                r == Uncached(shape, config, store, kind) && IsAnswer(shape, config, store, kind, r)
    {
      UncachedAnswers(shape, config, store, kind);
      if kind in config.moved {
        return Some([]);
      }
      if kind in config.single {
        var stamp := ReadStamp(store, config.single[kind]);
        r := SyncedRecords(stamp, config.single[kind], kind);
        return;
      }
      if kind == config.people {
        r := ReadPeople();
        return;
      }
      if kind in config.editorial {
        var stamps := StampsNow(EditorialReader(config, kind).parts);
        r := Editorial(kind, stamps);
        return;
      }
      if kind == config.media {
        var stamps := StampsNow(MediaReader(config).parts);
        r := Media(stamps);
        return;
      }
      if kind == config.course {
        var stamps := StampsNow(CourseReader(config).parts);
        r := Courses(stamps);
        return;
      }
      var records := Released(store.active, kind);
      return Some(records);
    }
  }

  lemma NoReleaseIsTrue(shape: Shape, s: Store, kind: Kind)
    requires IsStore(s)
    ensures IsReleaseTrue(shape, s, Entry(("", kind), []))
  {
    forall t | Future(s, t) ensures ReleaseRecords(shape, t, "", kind) == [] {
      var events :| AllAllowed(s, events) && Run(s, events) == t;
      RunKeepsStore(s, events);
    }
  }

  lemma {:induction false} RunKeepsStore(s: Store, events: seq<Event>)
    requires IsStore(s) && AllAllowed(s, events)
    ensures IsStore(Run(s, events))
    decreases |events|
  {
    if events != [] {
      StepKeepsStore(s, events[0]);
      RunKeepsStore(Step(s, events[0]), events[1..]);
    }
  }

  lemma {:induction false} FirstPartIsHeld(shape: Shape, s: Store, parts: seq<(Source, Kind)>)
    requires parts != [] && UncachedParts(shape, s, parts).Some?
    ensures UncachedRecords(shape, s, parts[0].0, parts[0].1).Some?
  {
    if |parts| > 1 { FirstPartIsHeld(shape, s, parts[..|parts| - 1]); }
  }

  lemma {:induction false} RefusedPart(shape: Shape, s: Store, parts: seq<(Source, Kind)>, i: nat)
    requires i < |parts| && UncachedRecords(shape, s, parts[i].0, parts[i].1) == None
    ensures UncachedParts(shape, s, parts) == None
  {
    if i < |parts| - 1 { RefusedPart(shape, s, parts[..|parts| - 1], i); }
  }
}
