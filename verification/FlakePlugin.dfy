/**
 The test-session plugin that counts outcomes, and the counts it reports at the end.
 */
module FlakePlugin {
  import opened Sequences

  datatype Outcome = Passed | Failed | Skipped | Rerun

  datatype Phase = Setup | Call | Teardown

  // A quarantine mark as written: its positional arguments, its keywords and its issue, if that is a whole number.
  datatype Mark = Mark(arguments: nat, keywords: set<string>, issue: int, isNumber: bool)

  datatype Item = Item(id: string, marks: seq<Mark>)

  datatype Event =
    | Collected(items: seq<Item>)
    | Deselected(items: seq<Item>)
    | CollectionFinished(items: seq<Item>)
    | Report(id: string, phase: Phase, outcome: Outcome)

  datatype State = State(selected: nat, quarantined: nat, rerun: nat, outcomes: map<string, Outcome>, validated: set<string>)

  const FRESH := State(0, 0, 0, map[], {})

  datatype Marking = Unmarked | Marked | BadMark

  function MarkingOf(item: Item): Marking {
    if item.marks == [] then Unmarked
    else if |item.marks| != 1 || item.marks[0].arguments != 0 || item.marks[0].keywords != {"issue"} then BadMark
    else if !item.marks[0].isNumber || item.marks[0].issue < 1 then BadMark
    else Marked
  }

  /** Counting the items not seen before; a bad mark stops the count after its item is noted. */
  function Counted(s: State, items: seq<Item>): (State, bool)
    decreases |items|
  {
    if items == [] then (s, true)
    else if items[0].id in s.validated then Counted(s, items[1..])
    else
      var noted := s.(validated := s.validated + {items[0].id});
      match MarkingOf(items[0])
      case BadMark => (noted, false)
      case Marked => Counted(noted.(quarantined := s.quarantined + 1), items[1..])
      case Unmarked => Counted(noted, items[1..])
  }

  predicate IsNoted(phase: Phase, outcome: Outcome) {
    match phase
    case Call => true
    case Setup => outcome == Failed || outcome == Skipped
    case Teardown => outcome == Failed
  }

  function Step(s: State, e: Event): State {
    match e
    case Collected(items) => Counted(s, items).0
    case Deselected(items) => Counted(s, items).0
    case CollectionFinished(items) => s.(selected := |items|)
    case Report(id, phase, outcome) =>
      if outcome == Rerun then s.(rerun := s.rerun + 1)
      else if IsNoted(phase, outcome) then s.(outcomes := s.outcomes[id := outcome])
      else s
  }

  function Run(events: seq<Event>): State {
    if events == [] then FRESH else Step(Run(events[..|events| - 1]), events[|events| - 1])
  }

  // ---- the summary ----

  datatype Summary = Summary(attempted: nat, passed: nat, failed: nat, skipped: nat, rerun: nat, quarantined: nat, complete: bool)

  function With(outcomes: map<string, Outcome>, o: Outcome): set<string> {
    set id | id in outcomes && outcomes[id] == o
  }

  function SummaryOf(s: State, exitStatus: int): Summary {
    Summary(s.selected, |With(s.outcomes, Passed)|, |With(s.outcomes, Failed)|, |With(s.outcomes, Skipped)|,
            s.rerun, s.quarantined,
            (exitStatus == 0 || exitStatus == 5) && |s.outcomes| == s.selected && s.rerun == 0)
  }

  class PolicyPlugin {
    var selected: nat
    var quarantined: nat
    var rerun: nat
    var outcomes: map<string, Outcome>
    var validated: set<string>

    function Current(): State
      reads this
    {
      State(selected, quarantined, rerun, outcomes, validated)
    }

    constructor ()
      ensures Current() == FRESH
    {
      selected, quarantined, rerun, outcomes, validated := 0, 0, 0, map[], {};
    }

    method ValidateAndCount(items: seq<Item>) returns (ok: bool)
      modifies this
      ensures (Current(), ok) == Counted(old(Current()), items)
    {
      for i := 0 to |items|
        invariant Counted(Current(), items[i..]) == Counted(old(Current()), items)
      {
        var item := items[i];
        assert items[i..][0] == item && items[i..][1..] == items[i + 1..];
        if item.id in validated {
          continue;
        }
        validated := validated + {item.id};
        var marking := MarkingOf(item);
        if marking == BadMark {
          return false;
        }
        if marking == Marked {
          quarantined := quarantined + 1;
        }
      }
      return true;
    }

    method CollectionModifyItems(items: seq<Item>) returns (ok: bool)
      modifies this
      ensures Current() == Step(old(Current()), Collected(items)) && ok == Counted(old(Current()), items).1
    {
      ok := ValidateAndCount(items);
    }

    method DeselectItems(items: seq<Item>) returns (ok: bool)
      modifies this
      ensures Current() == Step(old(Current()), Deselected(items)) && ok == Counted(old(Current()), items).1
    {
      ok := ValidateAndCount(items);
    }

    method CollectionFinish(items: seq<Item>)
      modifies this
      ensures Current() == Step(old(Current()), CollectionFinished(items))
    {
      selected := |items|;
    }

    method RuntestLogReport(id: string, phase: Phase, outcome: Outcome)
      modifies this
      ensures Current() == Step(old(Current()), Report(id, phase, outcome))
    {
      if outcome == Rerun {
        rerun := rerun + 1;
        return;
      }
      if phase == Call {
        outcomes := outcomes[id := outcome];
      } else if phase == Setup && (outcome == Failed || outcome == Skipped) {
        outcomes := outcomes[id := outcome];
      } else if phase == Teardown && outcome == Failed {
        outcomes := outcomes[id := outcome];
      }
    }

    method SessionFinish(exitStatus: int) returns (summary: Summary)
      ensures summary == SummaryOf(Current(), exitStatus)
    {
      var passed, failed, skipped := With(outcomes, Passed), With(outcomes, Failed), With(outcomes, Skipped);
      var complete := (exitStatus == 0 || exitStatus == 5) && |outcomes| == selected && rerun == 0;
      summary := Summary(selected, |passed|, |failed|, |skipped|, rerun, quarantined, complete);
    }
  }

  // ---- every run ----

  lemma {:induction false} CountingKeepsReports(s: State, items: seq<Item>)
    ensures Counted(s, items).0.outcomes == s.outcomes && Counted(s, items).0.rerun == s.rerun
    ensures Counted(s, items).0.selected == s.selected
    decreases |items|
  {
    if items != [] && items[0].id in s.validated {
      CountingKeepsReports(s, items[1..]);
    } else if items != [] && MarkingOf(items[0]) != BadMark {
      var noted := s.(validated := s.validated + {items[0].id});
      CountingKeepsReports(noted, items[1..]);
      CountingKeepsReports(noted.(quarantined := s.quarantined + 1), items[1..]);
    }
  }

  /** The event says something about the test that counts: how its call ended, that it was not set up, or that it was not torn down. */
  ghost predicate Notes(e: Event, id: string, o: Outcome) {
    || (e == Report(id, Call, o) && o != Rerun)
    || (e == Report(id, Setup, o) && (o == Failed || o == Skipped))
    || (e == Report(id, Teardown, o) && o == Failed)
  }

  /** `o` is the last thing noted for the test. */
  ghost predicate LastNoted(events: seq<Event>, id: string, o: Outcome) {
    exists i :: && 0 <= i < |events| && Notes(events[i], id, o)
                && forall j, p :: i < j < |events| ==> !Notes(events[j], id, p)
  }

  lemma LastNotedOfOlder(events: seq<Event>, last: Event, id: string, o: Outcome)
    ensures LastNoted(events + [last], id, o)
        <==> Notes(last, id, o) || ((forall p :: !Notes(last, id, p)) && LastNoted(events, id, o))
  {
    var all, n := events + [last], |events|;
    if Notes(last, id, o) { assert Notes(all[n], id, o); }
    if LastNoted(all, id, o) && !Notes(last, id, o) {
      var i :| && 0 <= i < |all| && Notes(all[i], id, o) && forall j, p :: i < j < |all| ==> !Notes(all[j], id, p);
      assert Notes(events[i], id, o);
      forall p ensures !Notes(last, id, p) { assert !Notes(all[n], id, p); }
      forall j, p | i < j < |events| ensures !Notes(events[j], id, p) { assert !Notes(all[j], id, p); }
    }
    if LastNoted(events, id, o) && forall p :: !Notes(last, id, p) {
      var i :| && 0 <= i < |events| && Notes(events[i], id, o) && forall j, p :: i < j < |events| ==> !Notes(events[j], id, p);
      assert Notes(all[i], id, o);
      forall j, p | i < j < |all| ensures !Notes(all[j], id, p) { if j < n { assert !Notes(events[j], id, p); } }
    }
  }

  lemma StepNotes(s: State, e: Event, id: string, o: Outcome)
    ensures var r := Step(s, e);
            id in r.outcomes && r.outcomes[id] == o
            <==> Notes(e, id, o) || ((forall p :: !Notes(e, id, p)) && id in s.outcomes && s.outcomes[id] == o)
  {
    if e.Collected? || e.Deselected? { CountingKeepsReports(s, e.items); }
    if e.Report? && e.id == id && e.outcome != Rerun && IsNoted(e.phase, e.outcome) { assert Notes(e, id, e.outcome); }
    if e.Report? { assert e == Report(e.id, e.phase, e.outcome); }
  }

  /** A test's outcome is the last one noted for it, and it has none exactly when nothing was noted. */
  lemma {:induction false} OutcomeIsLastNoted(events: seq<Event>, id: string, o: Outcome)
    ensures id in Run(events).outcomes && Run(events).outcomes[id] == o <==> LastNoted(events, id, o)
  {
    if events != [] {
      var older, last := events[..|events| - 1], events[|events| - 1];
      OutcomeIsLastNoted(older, id, o);
      StepNotes(Run(older), last, id, o);
      LastNotedOfOlder(older, last, id, o);
      assert events == older + [last];
    }
  }

  lemma {:induction false} NoRerunOutcome(events: seq<Event>)
    ensures forall id :: id in Run(events).outcomes ==> Run(events).outcomes[id] != Rerun
  {
    forall id | id in Run(events).outcomes ensures Run(events).outcomes[id] != Rerun {
      OutcomeIsLastNoted(events, id, Run(events).outcomes[id]);
    }
  }

  // ---- what is counted ----

  /** The items whose ids are new, each once. */
  ghost function New(items: seq<Item>, seen: set<string>): seq<Item> {
    if items == [] then []
    else if items[0].id in seen then New(items[1..], seen)
    else [items[0]] + New(items[1..], seen + {items[0].id})
  }

  /** One mark that names a positive issue and nothing else. */
  ghost predicate IsGood(item: Item) {
    exists issue :: issue > 0 && item.marks == [Mark(0, {"issue"}, issue, true)]
  }

  ghost predicate IsBad(item: Item) {
    item.marks != [] && !IsGood(item)
  }

  ghost function GoodIn(items: seq<Item>): nat {
    if items == [] then 0 else GoodIn(items[1..]) + if IsGood(items[0]) then 1 else 0
  }

  lemma MarkingMeans(item: Item)
    ensures MarkingOf(item) == Marked <==> IsGood(item)
    ensures MarkingOf(item) == BadMark <==> IsBad(item)
  {
    if |item.marks| == 1 {
      var m := item.marks[0];
      if MarkingOf(item) == Marked { assert item.marks == [Mark(0, {"issue"}, m.issue, true)]; }
    }
  }

  /** The first `n` new items are noted, those with a good mark as quarantined; the count stops only at a bad mark. */
  ghost predicate CountsUpTo(s: State, unseen: seq<Item>, n: nat, t: State, ok: bool) {
    && n <= |unseen|
    && t == s.(validated := s.validated + Ids(unseen[..n]), quarantined := s.quarantined + GoodIn(unseen[..n]))
    && if ok then n == |unseen| && forall k :: 0 <= k < n ==> !IsBad(unseen[k])
       else n > 0 && IsBad(unseen[n - 1]) && forall k :: 0 <= k < n - 1 ==> !IsBad(unseen[k])
  }

  lemma CountsFirst(s: State, first: Item, rest: seq<Item>, m: nat, t: State, ok: bool)
    requires !IsBad(first)
    requires CountsUpTo(s.(validated := s.validated + {first.id}, quarantined := s.quarantined + if IsGood(first) then 1 else 0), rest, m, t, ok)
    ensures CountsUpTo(s, [first] + rest, m + 1, t, ok)
  {
    OneNew(first, rest, m);
    var unseen := [first] + rest;
    assert s.validated + ({first.id} + Ids(rest[..m])) == s.validated + {first.id} + Ids(rest[..m]);
    forall k | 0 < k < |unseen| ensures unseen[k] == rest[k - 1] {}
  }

  lemma StopsAtFirst(s: State, first: Item, rest: seq<Item>)
    requires IsBad(first)
    ensures CountsUpTo(s, [first] + rest, 1, s.(validated := s.validated + {first.id}), false)
  {
    OneNew(first, rest, 0);
    assert Ids([]) == {};
  }

  /** The new items are counted up to the first with a bad mark. */
  lemma {:induction false} CountedMeans(s: State, items: seq<Item>) returns (n: nat)
    ensures CountsUpTo(s, New(items, s.validated), n, Counted(s, items).0, Counted(s, items).1)
    decreases |items|
  {
    n := 0;
    if items == [] {
      assert Ids([]) == {};
    } else if items[0].id in s.validated {
      n := CountedMeans(s, items[1..]);
    } else {
      MarkingMeans(items[0]);
      var first, noted := items[0], s.(validated := s.validated + {items[0].id});
      var rest := New(items[1..], noted.validated);
      if IsBad(first) {
        n := 1;
        StopsAtFirst(s, first, rest);
      } else {
        var next := noted.(quarantined := s.quarantined + if IsGood(first) then 1 else 0);
        var m := CountedMeans(next, items[1..]);
        CountsFirst(s, first, rest, m, Counted(next, items[1..]).0, Counted(next, items[1..]).1);
        n := m + 1;
      }
    }
  }

  lemma OneNew(first: Item, rest: seq<Item>, m: nat)
    requires m <= |rest|
    ensures ([first] + rest)[..m + 1] == [first] + rest[..m]
    ensures Ids(([first] + rest)[..m + 1]) == {first.id} + Ids(rest[..m])
    ensures GoodIn(([first] + rest)[..m + 1]) == GoodIn(rest[..m]) + if IsGood(first) then 1 else 0
  {
    var all := [first] + rest[..m];
    assert ([first] + rest)[..m + 1] == all;
    assert all[1..] == rest[..m];
    assert forall x :: x in all <==> x == first || x in rest[..m];
  }

  ghost function Reruns(events: seq<Event>): nat {
    if events == [] then 0
    else Reruns(events[..|events| - 1]) + if events[|events| - 1].Report? && events[|events| - 1].outcome == Rerun then 1 else 0
  }

  /** The plugin counts the reports of reruns, and knows no selected tests before a collection ends. */
  lemma {:induction false} RerunsAreCounted(events: seq<Event>)
    ensures Run(events).rerun == Reruns(events)
    ensures (forall i :: 0 <= i < |events| ==> !events[i].CollectionFinished?) ==> Run(events).selected == 0
  {
    if events != [] {
      var older, last := events[..|events| - 1], events[|events| - 1];
      RerunsAreCounted(older);
      if last.Collected? || last.Deselected? { CountingKeepsReports(Run(older), last.items); }
    }
  }

  /** What the summary says of the counts. */
  lemma SummaryIs(s: State, exitStatus: int)
    ensures var r := SummaryOf(s, exitStatus);
            && r.attempted == s.selected && r.rerun == s.rerun && r.quarantined == s.quarantined
            && r.passed == |set id | id in s.outcomes && s.outcomes[id] == Passed|
            && r.failed == |set id | id in s.outcomes && s.outcomes[id] == Failed|
            && r.skipped == |set id | id in s.outcomes && s.outcomes[id] == Skipped|
            && (r.complete <==> (exitStatus == 0 || exitStatus == 5) && |s.outcomes.Keys| == s.selected && s.rerun == 0)
  {
    assert |s.outcomes| == |s.outcomes.Keys|;
  }

  /** Passed, failed and skipped tests are all the tests with an outcome. */
  lemma OutcomesAddUp(outcomes: map<string, Outcome>)
    requires forall id :: id in outcomes ==> outcomes[id] != Rerun
    ensures |With(outcomes, Passed)| + |With(outcomes, Failed)| + |With(outcomes, Skipped)| == |outcomes|
  {
    var p, f, s := With(outcomes, Passed), With(outcomes, Failed), With(outcomes, Skipped);
    assert p !! f && (p + f) !! s && p + f + s == outcomes.Keys;
    assert |p + f| == |p| + |f| && |p + f + s| == |p + f| + |s|;
  }

  /** The counts of a session's summary add up exactly when as many tests have an outcome as were selected. */
  lemma SummaryAddsUpIff(events: seq<Event>, exitStatus: int)
    ensures var s := SummaryOf(Run(events), exitStatus);
            s.attempted == s.passed + s.failed + s.skipped <==> |Run(events).outcomes| == Run(events).selected
  {
    NoRerunOutcome(events);
    OutcomesAddUp(Run(events).outcomes);
  }

  // ---- sessions that report only what they selected ----

  function Ids(items: seq<Item>): set<string> {
    set item | item in items :: item.id
  }

  function IdList(items: seq<Item>): seq<string> {
    Mapped(items, (item: Item) => item.id)
  }

  /** Collection ends with `items`, and only those are reported. */
  ghost predicate IsSession(events: seq<Event>, items: seq<Item>) {
    && Distinct(IdList(items))
    && (exists k :: 0 <= k < |events| && events[k] == CollectionFinished(items)
                    && forall j :: k < j < |events| ==> !events[j].CollectionFinished?)
    && (forall i :: 0 <= i < |events| && events[i].Report? ==> events[i].id in Ids(items))
  }

  lemma IdsOfRest(items: seq<Item>)
    requires items != [] && Distinct(IdList(items))
    ensures Distinct(IdList(items[1..])) && items[0].id !in Ids(items[1..])
  {
    var rest := items[1..];
    DistinctRest(IdList(items));
    assert IdList(rest) == IdList(items)[1..];
    forall k | 0 <= k < |rest| ensures rest[k].id != items[0].id { assert IdList(rest)[k] == rest[k].id; }
  }

  lemma IdsStep(items: seq<Item>)
    requires items != []
    ensures Ids(items) == {items[0].id} + Ids(items[1..])
  {
    assert forall x :: x in items <==> x == items[0] || x in items[1..];
  }

  lemma {:induction false} IdsCount(items: seq<Item>)
    requires Distinct(IdList(items))
    ensures |Ids(items)| == |items|
  {
    if items != [] {
      IdsOfRest(items);
      IdsCount(items[1..]);
      IdsStep(items);
    }
  }

  lemma {:induction false} SelectedIsLast(events: seq<Event>, items: seq<Item>, k: nat)
    requires k < |events| && events[k] == CollectionFinished(items)
    requires forall j :: k < j < |events| ==> !events[j].CollectionFinished?
    ensures Run(events).selected == |items|
  {
    var n := |events| - 1;
    if k < n {
      var older, last := events[..n], events[n];
      assert older[k] == events[k] && forall j :: k < j < |older| ==> older[j] == events[j];
      SelectedIsLast(older, items, k);
      CountingKeepsReports(Run(older), if last.Collected? || last.Deselected? then last.items else []);
    }
  }

  /** In a session the counts add up exactly when every selected test has an outcome. */
  lemma SessionAddsUpIff(events: seq<Event>, items: seq<Item>, exitStatus: int)
    requires IsSession(events, items)
    ensures var s := SummaryOf(Run(events), exitStatus);
            s.attempted == s.passed + s.failed + s.skipped
            <==> forall item :: item in items ==> item.id in Run(events).outcomes
  {
    SummaryAddsUpIff(events, exitStatus);
    var k :| 0 <= k < |events| && events[k] == CollectionFinished(items)
             && forall j :: k < j < |events| ==> !events[j].CollectionFinished?;
    SelectedIsLast(events, items, k);
    IdsCount(items);
    var keys := Run(events).outcomes.Keys;
    forall id | id in keys ensures id in Ids(items) {
      OutcomeIsLastNoted(events, id, Run(events).outcomes[id]);
    }
    if |keys| == |Ids(items)| {
      SubsetOfSameSize(keys, Ids(items));
      forall item | item in items ensures item.id in keys { assert item.id in Ids(items); }
    }
    if forall item :: item in items ==> item.id in keys { assert keys == Ids(items); }
  }

  lemma SubsetOfSameSize(a: set<string>, b: set<string>)
    requires a <= b && |a| == |b|
    ensures a == b
  {
    assert b == a + (b - a) && |b| == |a| + |b - a|;
  }
}
