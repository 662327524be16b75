/**
 Conservation over all pages: what becomes of every batched abort.
 */
module TrackerConservation {
  import opened Sequences
  import opened Tracker
  import opened TrackerTraces
  import opened TrackerRuns
  import opened Wrappers

  // ---- sums over pages ----

  ghost function Sum(f: Page -> seq<Abort>, pages: seq<Page>): multiset<Abort> {
    if pages == [] then multiset{} else multiset(f(pages[0])) + Sum(f, pages[1..])
  }

  lemma {:induction false} SumWithout(f: Page -> seq<Abort>, pages: seq<Page>, p: Page)
    requires Distinct(pages) && p in pages
    ensures Sum(f, pages) == multiset(f(p)) + Sum(f, Without(pages, p))
  {
    DistinctRest(pages);
    if pages[0] == p { WithoutAbsent(pages[1..], p); } else { SumWithout(f, pages[1..], p); }
  }

  lemma {:induction false} SumOfNothing(f: Page -> seq<Abort>, pages: seq<Page>)
    requires forall p :: p in pages ==> f(p) == []
    ensures Sum(f, pages) == multiset{}
  {
    if pages != [] { SumOfNothing(f, pages[1..]); }
  }

  /** Pages that contribute nothing do not matter, and neither does the order. */
  lemma {:induction false} SumOfCover(f: Page -> seq<Abort>, order: seq<Page>, pages: seq<Page>)
    requires Distinct(order) && Distinct(pages) && forall p :: p in order ==> p in pages
    requires forall p :: p in pages && p !in order ==> f(p) == []
    ensures Sum(f, pages) == Sum(f, order)
  {
    if order == [] {
      SumOfNothing(f, pages);
    } else {
      var p := order[0];
      SumWithout(f, pages, p);
      WithoutElements(pages, p);
      DistinctHead(order);
      SumOfCover(f, order[1..], Without(pages, p));
    }
  }

  ghost function HeldAt(s: State): Page -> seq<Abort> {
    (p: Page) => Held(s, p)
  }

  ghost function ReportsAt(s: State, e: Event): Page -> seq<Abort> {
    (p: Page) => Reports(s, e, p)
  }

  /** What leaves the pending dictionary for `p` and is not reported. */
  ghost function Explains(s: State, e: Event, p: Page): seq<Abort> {
    if s.pages[p].batch.Some? && FateOf(s, e, p) == Explained then Held(s, p) else []
  }

  ghost function ExplainsAt(s: State, e: Event): Page -> seq<Abort> {
    (p: Page) => Explains(s, e, p)
  }

  ghost function JoinsAt(s: State, e: Event): Page -> seq<Abort> {
    (p: Page) => Joins(s, e, p)
  }

  lemma {:induction false} AllHeldIsSum(s: State, pages: seq<Page>)
    ensures multiset(AllHeld(s, pages)) == Sum(HeldAt(s), pages)
  {
    if pages != [] { AllHeldIsSum(s, pages[1..]); }
  }

  lemma {:induction false} ReportsIsSum(s: State, e: Event, pages: seq<Page>)
    ensures multiset(ReportsOf(s, e, pages)) == Sum(ReportsAt(s, e), pages)
  {
    if pages != [] { ReportsIsSum(s, e, pages[1..]); }
  }

  // ---- one event ----

  /** The abort an event batches, on whatever page. */
  ghost function BatchedAt(s: State, e: Event): seq<Abort> {
    if e.AbortOf? then Joins(s, e, e.page) else []
  }

  lemma PageBalance(s: State, e: Event, p: Page)
    requires Inv(s)
    ensures multiset(Joins(s, e, p)) + multiset(Held(s, p))
         == multiset(Explains(s, e, p)) + multiset(Reports(s, e, p)) + multiset(Held(Step(s, e), p))
  {
    StepFollowsFate(s, e, p);
    assert multiset(Leaves(s, e, p) + Held(Step(s, e), p)) == multiset(Held(s, p) + Joins(s, e, p));
    assert multiset(Leaves(s, e, p)) == multiset(Explains(s, e, p)) + multiset(Reports(s, e, p));
  }

  lemma AddBalances(a: multiset<Abort>, b: multiset<Abort>, c: multiset<Abort>, d: multiset<Abort>, e: multiset<Abort>,
                    a': multiset<Abort>, b': multiset<Abort>, c': multiset<Abort>, d': multiset<Abort>, e': multiset<Abort>)
    requires a + b == c + d + e && a' + b' == c' + d' + e'
    ensures (a + a') + (b + b') == (c + c') + (d + d') + (e + e')
  {
    assert (a + a') + (b + b') == (a + b) + (a' + b');
    assert (c + c') + (d + d') + (e + e') == (c + d + e) + (c' + d' + e');
  }

  lemma {:induction false} PagesBalance(s: State, e: Event, pages: seq<Page>)
    requires Inv(s)
    ensures Sum(JoinsAt(s, e), pages) + Sum(HeldAt(s), pages)
         == Sum(ExplainsAt(s, e), pages) + Sum(ReportsAt(s, e), pages) + Sum(HeldAt(Step(s, e)), pages)
  {
    if pages != [] {
      var p, rest := pages[0], pages[1..];
      PagesBalance(s, e, rest);
      PageBalance(s, e, p);
      AddBalances(multiset(Joins(s, e, p)), multiset(Held(s, p)), multiset(Explains(s, e, p)), multiset(Reports(s, e, p)),
                  multiset(Held(Step(s, e), p)), Sum(JoinsAt(s, e), rest), Sum(HeldAt(s), rest), Sum(ExplainsAt(s, e), rest),
                  Sum(ReportsAt(s, e), rest), Sum(HeldAt(Step(s, e)), rest));
    }
  }

  /** A page enters the pending dictionary only when one of its aborts is batched. */
  lemma OrderGrows(s: State, e: Event)
    requires Inv(s)
    ensures forall p :: p in Step(s, e).order ==> p in s.order || (e.AbortOf? && p == e.page)
  {
    StepKeepsInv(s, e);
    forall p | p in Step(s, e).order && p !in s.order ensures e.AbortOf? && p == e.page {
      StepFollowsFate(s, e, p);
      assert PageOk(Step(s, e).pages[p], Step(s, e).contextClosing);
      assert Held(Step(s, e), p) != [] && Held(s, p) == [];
    }
  }

  /** The pages of the dictionary, and the page of an abort. */
  ghost function PagesFor(s: State, e: Event): seq<Page> {
    if e.AbortOf? && e.page !in s.order then s.order + [e.page] else s.order
  }

  lemma JoinsSum(s: State, e: Event)
    requires Inv(s)
    ensures Sum(JoinsAt(s, e), PagesFor(s, e)) == multiset(BatchedAt(s, e))
  {
    var pages := PagesFor(s, e);
    if e.AbortOf? {
      if e.page !in s.order { DistinctAppend(s.order, e.page); }
      SumOfCover(JoinsAt(s, e), [e.page], pages);
      assert Sum(JoinsAt(s, e), []) == multiset{};
      assert [e.page][1..] == [];
    } else {
      SumOfNothing(JoinsAt(s, e), pages);
    }
  }

  /** Batched and held before is explained, reported or held after. */
  lemma StepBalance(s: State, e: Event)
    requires Inv(s)
    ensures multiset(BatchedAt(s, e)) + multiset(AllHeld(s, s.order))
         == Sum(ExplainsAt(s, e), s.order) + multiset(ReportsOf(s, e, s.order)) + multiset(AllHeld(Step(s, e), Step(s, e).order))
  {
    var pages, s' := PagesFor(s, e), Step(s, e);
    StepKeepsInv(s, e);
    OrderGrows(s, e);
    if e.AbortOf? && e.page !in s.order { DistinctAppend(s.order, e.page); }
    JoinsSum(s, e);
    PagesBalance(s, e, pages);
    SumOfCover(HeldAt(s), s.order, pages);
    SumOfCover(ExplainsAt(s, e), s.order, pages);
    SumOfCover(ReportsAt(s, e), s.order, pages);
    HeldInOrder(s, e);
    AllHeldIsSum(s, s.order);
    AllHeldIsSum(s', s'.order);
    ReportsIsSum(s, e, s.order);
  }

  lemma HeldInOrder(s: State, e: Event)
    requires Inv(s)
    ensures Sum(HeldAt(Step(s, e)), PagesFor(s, e)) == Sum(HeldAt(Step(s, e)), Step(s, e).order)
  {
    StepKeepsInv(s, e);
    OrderGrows(s, e);
    if e.AbortOf? && e.page !in s.order { DistinctAppend(s.order, e.page); }
    SumOfCover(HeldAt(Step(s, e)), Step(s, e).order, PagesFor(s, e));
  }

  // ---- whole runs ----

  /** The aborts batched so far, on all pages. */
  ghost function BatchedIn(o: Option<string>, es: seq<Event>): multiset<Abort> {
    if es == [] then multiset{} else BatchedIn(o, Init(es)) + multiset(BatchedAt(Run(o, Init(es)), Last(es)))
  }

  /** The aborts silently explained so far, on all pages. */
  ghost function ExplainedIn(o: Option<string>, es: seq<Event>): multiset<Abort> {
    if es == [] then multiset{}
    else ExplainedIn(o, Init(es)) + Sum(ExplainsAt(Run(o, Init(es)), Last(es)), Run(o, Init(es)).order)
  }

  lemma CarryAll(total: multiset<Abort>, explained: multiset<Abort>, reported: multiset<Abort>, held: multiset<Abort>,
                 joined: multiset<Abort>, explains: multiset<Abort>, reports: multiset<Abort>, held': multiset<Abort>)
    requires total == explained + reported + held && joined + held == explains + reports + held'
    ensures total + joined == (explained + explains) + (reported + reports) + held'
  {
    assert total + joined == explained + reported + (joined + held);
  }

  lemma {:induction false} BatchedIsSettled(o: Option<string>, es: seq<Event>)
    ensures BatchedIn(o, es) == ExplainedIn(o, es) + multiset(ReportedIn(o, es)) + multiset(AllHeld(Run(o, es), Run(o, es).order))
  {
    if es != [] {
      var s, e := Run(o, Init(es)), Last(es);
      BatchedIsSettled(o, Init(es));
      RunInv(o, Init(es));
      StepBalance(s, e);
      var reported, now := ReportedIn(o, Init(es)), ReportsOf(s, e, s.order);
      assert multiset(reported + now) == multiset(reported) + multiset(now);
      CarryAll(BatchedIn(o, Init(es)), ExplainedIn(o, Init(es)), multiset(reported), multiset(AllHeld(s, s.order)),
               multiset(BatchedAt(s, e)), Sum(ExplainsAt(s, e), s.order), multiset(now), multiset(AllHeld(Step(s, e), Step(s, e).order)));
    }
  }

  /**
   Over every event sequence the batched aborts of all pages are, each once, those silently
   explained, those taken, those waiting to be taken, and those still pending.
   */
  lemma Conservation(o: Option<string>, es: seq<Event>)
    ensures BatchedIn(o, es)
         == ExplainedIn(o, es) + multiset(TakenIn(o, es)) + multiset(Run(o, es).unexplained)
            + multiset(AllHeld(Run(o, es), Run(o, es).order))
  {
    BatchedIsSettled(o, es);
    EveryReportIsTakenOnce(o, es);
    assert multiset(TakenIn(o, es) + Run(o, es).unexplained) == multiset(TakenIn(o, es)) + multiset(Run(o, es).unexplained);
  }
}
