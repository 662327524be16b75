/**
 The browser fixture's navigation cancellation tracker as a state machine.
 */
module Tracker {
  import opened Sequences
  import opened Wrappers

  // `PageState` is what the tracker knows of one page, and every page operation is a
  // function from one page state to the next together with the aborts it reports.
  // The class at the end of the file keeps that knowledge in one dictionary per
  // field, as the fixture does, and each of its methods is proved to make the step.
  // TrackerTraces.dfy states what whole runs of events keep.

  const ERR_ABORTED := "net::ERR_ABORTED"

  datatype Page = Page(id: nat)
  datatype Request = Request(id: nat)
  datatype Url = Url(origin: string, path: string)
  datatype Abort = Abort(url: Url, failure: string)

  datatype Attempt = Attempt(generation: nat, mainRequest: Option<Request>)

  datatype Tracked = Tracked(page: Page, generation: nat, sameOrigin: bool,
                             attemptGeneration: Option<nat>, mainNavigation: bool)

  datatype Batch = Batch(generation: nat, commitGeneration: Option<nat>, lastEvent: nat,
                         failures: seq<Abort>)

  datatype PageState = PageState(generation: nat, event: nat, committed: Option<nat>,
                                 attempt: Option<Attempt>, batch: Option<Batch>, closing: bool)

  /** What is known of a page no event has mentioned. */
  function Unseen(p: Page): PageState {
    PageState(0, 0, None, None, None, false)
  }

  // What one operation does to a page: its new state, the aborts moved to the
  // unexplained list, whether the batch that was pending left the dictionary, and
  // whether a new one entered it.
  datatype Effect = Effect(page: PageState, reported: seq<Abort>, left: bool, joined: bool)

  // ---- operations on one page ----

  function Next(v: PageState): PageState {
    v.(event := v.event + 1)
  }

  function Keep(v: PageState): Effect {
    Effect(v, [], false, false)
  }

  function Finalize(v: PageState): Effect {
    if v.batch.Some? then Effect(v.(batch := None), v.batch.value.failures, true, false) else Keep(v)
  }

  function Discard(v: PageState): Effect {
    Effect(v.(batch := None), [], v.batch.Some?, false)
  }

  function SealInactive(v: PageState): Effect {
    if v.batch.Some?
       && (v.batch.value.commitGeneration.None? || v.attempt.None?
           || v.batch.value.commitGeneration != Some(v.attempt.value.generation))
    then Finalize(v) else Keep(v)
  }

  function EndAttempt(v: PageState, generation: Option<nat>): PageState {
    if v.attempt.Some? && Some(v.attempt.value.generation) == generation then v.(attempt := None) else v
  }

  function StartNavigation(v: PageState, mainRequest: Option<Request>): PageState {
    v.(generation := v.generation + 1, attempt := Some(Attempt(v.generation + 1, mainRequest)))
  }

  function ResolveRendererNavigation(v: PageState): Effect {
    if v.batch.Some? && v.batch.value.generation == v.generation && v.batch.value.lastEvent == v.event - 1
    then Discard(v) else Finalize(v)
  }

  function ResolveCommit(v: PageState): Effect {
    if v.batch.Some? && v.batch.value.commitGeneration == Some(v.generation)
    then Discard(v) else Finalize(v)
  }

  predicate AwaitsMainRequest(v: PageState) {
    v.attempt.Some? && v.attempt.value.mainRequest.None?
  }

  function EnterMainNavigation(v: PageState, r: Request): (f: Effect)
    ensures f.page.attempt.Some?
  {
    if AwaitsMainRequest(v) then
      var f := SealInactive(v);
      f.(page := f.page.(attempt := Some(v.attempt.value.(mainRequest := Some(r)))))
    else
      var f := ResolveRendererNavigation(v);
      f.(page := StartNavigation(f.page, Some(r)))
  }

  function RequestStarted(v: PageState, r: Request, mainNavigation: bool): Effect {
    if mainNavigation then EnterMainNavigation(Next(v), r) else SealInactive(Next(v))
  }

  function TrackedRequest(p: Page, after: PageState, sameOrigin: bool, mainNavigation: bool): Tracked {
    if mainNavigation && after.attempt.Some? then
      var g := after.attempt.value.generation;
      Tracked(p, g, true, Some(g), true)
    else
      Tracked(p, after.generation, sameOrigin,
              if sameOrigin && after.attempt.Some? then Some(after.attempt.value.generation) else None, false)
  }

  function RequestFinished(v: PageState, t: Tracked): Effect {
    if t.mainNavigation then Finalize(EndAttempt(Next(v), t.attemptGeneration)) else SealInactive(Next(v))
  }

  function PageClosing(v: PageState): Effect {
    var f := Finalize(Next(v));
    f.(page := f.page.(attempt := None, closing := true))
  }

  function NavigationBegun(v: PageState): Effect {
    var f := Finalize(Next(v));
    f.(page := StartNavigation(f.page, None))
  }

  function NavigationCommitted(v: PageState): Effect {
    var v1 := Next(v);
    var f := if v1.committed == Some(v1.generation) then Finalize(v1) else ResolveCommit(v1);
    f.(page := f.page.(committed := Some(v1.generation), attempt := None))
  }

  function NavigationFailed(v: PageState): Effect {
    var f := Finalize(Next(v));
    f.(page := f.page.(attempt := None))
  }

  /** The pending batch takes the abort if it belongs to the same attempt, or to none and nothing came between. */
  predicate Extends(v: PageState, t: Tracked) {
    && v.batch.Some?
    && v.batch.value.generation == t.generation
    && v.batch.value.commitGeneration == t.attemptGeneration
    && (v.batch.value.lastEvent == v.event - 1 || v.batch.value.commitGeneration.Some?)
  }

  function AppendAbort(v: PageState, t: Tracked, abort: Abort): Effect {
    var f := if Extends(v, t) then Keep(v) else Finalize(v);
    var failures := if Extends(v, t) then v.batch.value.failures else [];
    f.(page := f.page.(batch := Some(Batch(t.generation, t.attemptGeneration, v.event, failures + [abort]))),
       joined := !Extends(v, t))
  }

  function EndMainAttempt(v: PageState, t: Option<Tracked>): PageState {
    if t.Some? && t.value.mainNavigation then EndAttempt(v, t.value.attemptGeneration) else v
  }

  // ---- the whole tracker ----

  ghost predicate Total(m: imap<Page, PageState>) {
    forall p: Page :: p in m
  }

  type Pages = m: imap<Page, PageState> | Total(m) ghost witness imap p: Page | true :: Unseen(p)

  // `order` is the insertion order of the pending dictionary.
  datatype State = State(allowedOrigin: Option<string>, contextClosing: bool, pages: Pages,
                         requests: map<Request, Tracked>, order: seq<Page>, unexplained: seq<Abort>)

  ghost function Initial(allowedOrigin: Option<string>): State {
    State(allowedOrigin, false, imap p: Page | true :: Unseen(p), map[], [], [])
  }

  function Reorder(order: seq<Page>, p: Page, f: Effect): seq<Page> {
    (if f.left then Without(order, p) else order) + (if f.joined then [p] else [])
  }

  ghost function Lift(s: State, p: Page, f: Effect): State {
    s.(pages := s.pages[p := f.page], order := Reorder(s.order, p, f), unexplained := s.unexplained + f.reported)
  }

  predicate SameOrigin(s: State, url: Url) {
    s.allowedOrigin == Some(url.origin)
  }

  ghost function Started(s: State, p: Page, r: Request, url: Url, mainFrameNavigation: bool): State {
    var mainNavigation := SameOrigin(s, url) && mainFrameNavigation;
    var f := RequestStarted(s.pages[p], r, mainNavigation);
    Lift(s, p, f).(requests := s.requests[r := TrackedRequest(p, f.page, SameOrigin(s, url), mainNavigation)])
  }

  ghost function Finished(s: State, r: Request): State {
    if r !in s.requests then s
    else
      var t := s.requests[r];
      Lift(s, t.page, RequestFinished(s.pages[t.page], t)).(requests := s.requests - {r})
  }

  // How the tracker classifies a failed request: not its concern, an abort while
  // something closes, an abort of a request older than the page's navigation, or
  // one to hold until the next events explain it or do not.
  datatype AbortKind = Foreign | Closing | Superseded | Batched

  function KindOf(origin: Option<string>, contextClosing: bool, v: PageState, tracked: Option<Tracked>,
                  p: Page, url: Url, failure: Option<string>): AbortKind {
    if failure != Some(ERR_ABORTED) || origin != Some(url.origin) then Foreign
    else if contextClosing || v.closing then Closing
    else if tracked.None? || tracked.value.page != p || !tracked.value.sameOrigin then Foreign
    else if tracked.value.generation < v.generation then Superseded
    else Batched
  }

  ghost function AbortSeen(s: State, p: Page, r: Request, url: Url, failure: Option<string>): State {
    var v := Next(s.pages[p]);
    var t := if r in s.requests then Some(s.requests[r]) else None;
    var s1 := s.(requests := s.requests - {r});
    match KindOf(s.allowedOrigin, s.contextClosing, s.pages[p], t, p, url, failure)
    case Batched => Lift(s1, p, AppendAbort(EndMainAttempt(v, t), t.value, Abort(url, ERR_ABORTED)))
    case Superseded => Lift(s1, p, SealInactive(v))
    case _ =>
      var s2 := Lift(s1, p, Finalize(v));
      if t.Some? then s2.(pages := s2.pages[t.value.page := EndMainAttempt(s2.pages[t.value.page], t)]) else s2
  }

  function Failures(v: PageState): seq<Abort> {
    if v.batch.Some? then v.batch.value.failures else []
  }

  ghost function Held(s: State, p: Page): seq<Abort> {
    Failures(s.pages[p])
  }

  ghost function AllHeld(s: State, pages: seq<Page>): seq<Abort> {
    if pages == [] then [] else Held(s, pages[0]) + AllHeld(s, pages[1..])
  }

  /** Every pending batch moves to the unexplained list, in dictionary order. */
  ghost function Drained(s: State): State {
    s.(pages := imap p: Page | true :: s.pages[p].(batch := None), order := [],
       unexplained := s.unexplained + AllHeld(s, s.order))
  }

  ghost function ContextClosing(s: State): State {
    s.(pages := imap p: Page | true :: s.pages[p].(batch := None, attempt := None), order := [],
       unexplained := s.unexplained + AllHeld(s, s.order), contextClosing := true)
  }

  // ---- the tracker itself ----

  function Get(m: map<Page, nat>, p: Page): nat {
    if p in m then m[p] else 0
  }

  function Find<K, V>(m: map<K, V>, k: K): Option<V> {
    if k in m then Some(m[k]) else None
  }

  function Listed(pending: map<Page, Batch>, pages: seq<Page>): seq<Abort> {
    if pages == [] then []
    else (if pages[0] in pending then pending[pages[0]].failures else []) + Listed(pending, pages[1..])
  }

  lemma ListedStep(pending: map<Page, Batch>, pages: seq<Page>, reported: seq<Abort>)
    requires pages != [] && pages[0] in pending
    ensures reported + Listed(pending, pages) == reported + pending[pages[0]].failures + Listed(pending, pages[1..])
  {
    assert reported + (pending[pages[0]].failures + Listed(pending, pages[1..]))
        == reported + pending[pages[0]].failures + Listed(pending, pages[1..]);
  }

  /** The fixture's object: one dictionary per field, updated in place. */
  class NavigationCancellationTracker {
    const allowedOrigin: Option<string>
    var contextClosing: bool
    var pageGenerations: map<Page, nat>
    var pageEvents: map<Page, nat>
    var committedGenerations: map<Page, nat>
    var activeAttempts: map<Page, Attempt>
    var closingPages: set<Page>
    var requests: map<Request, Tracked>
    var pendingAborts: map<Page, Batch>
    var pendingOrder: seq<Page>
    var unexplainedAborts: seq<Abort>

    ghost predicate Valid()
      reads this
    {
      forall p :: p in pendingOrder <==> p in pendingAborts
    }

    ghost function View(p: Page): PageState
      reads this
    {
      PageState(Get(pageGenerations, p), Get(pageEvents, p), Find(committedGenerations, p),
                Find(activeAttempts, p), Find(pendingAborts, p), p in closingPages)
    }

    ghost function Snapshot(): State
      reads this
    {
      State(allowedOrigin, contextClosing, imap p: Page | true :: View(p), requests, pendingOrder, unexplainedAborts)
    }

    /** Only `page` changed, and it changed by `f`. */
    twostate predicate Stepped(page: Page, f: Effect)
      reads this
    {
      && View(page) == f.page
      && (forall q :: q != page ==> View(q) == old(View(q)))
      && pendingOrder == Reorder(old(pendingOrder), page, f)
      && unexplainedAborts == old(unexplainedAborts) + f.reported
      && contextClosing == old(contextClosing)
    }

    lemma ListedIsHeld(pages: seq<Page>)
      ensures Listed(pendingAborts, pages) == AllHeld(Snapshot(), pages)
    {
      if pages != [] { ListedIsHeld(pages[1..]); }
    }

    constructor (allowedOrigin: Option<string>)
      ensures Valid() && Snapshot() == Initial(allowedOrigin)
    {
      this.allowedOrigin := allowedOrigin;
      contextClosing := false;
      pageGenerations, pageEvents, committedGenerations := map[], map[], map[];
      activeAttempts, closingPages, requests := map[], {}, map[];
      pendingAborts, pendingOrder, unexplainedAborts := map[], [], [];
    }

    method AdvanceEvent(page: Page)
      modifies this`pageEvents
      ensures pageEvents == old(pageEvents)[page := Get(old(pageEvents), page) + 1]
    {
      pageEvents := pageEvents[page := Get(pageEvents, page) + 1];
    }

    method TouchGeneration(page: Page)
      modifies this`pageGenerations
      ensures page in pageGenerations && pageGenerations[page] == Get(old(pageGenerations), page)
      ensures forall q :: Get(pageGenerations, q) == Get(old(pageGenerations), q)
    {
      pageGenerations := pageGenerations[page := Get(pageGenerations, page)];
    }

    method DiscardPending(page: Page)
      requires page in pendingAborts
      modifies this`pendingAborts, this`pendingOrder
      ensures pendingAborts == old(pendingAborts) - {page}
      ensures pendingOrder == Without(old(pendingOrder), page)
    {
      pendingAborts := pendingAborts - {page};
      pendingOrder := Without(pendingOrder, page);
    }

    /** The batch of `page`, if there is one, leaves for the unexplained list. */
    twostate predicate Finalized(page: Page)
      reads this
    {
      && pendingAborts == old(pendingAborts) - {page}
      && (page in old(pendingAborts) ==>
            && pendingOrder == Without(old(pendingOrder), page)
            && unexplainedAborts == old(unexplainedAborts) + old(pendingAborts)[page].failures)
      && (page !in old(pendingAborts) ==>
            pendingOrder == old(pendingOrder) && unexplainedAborts == old(unexplainedAborts))
    }

    twostate predicate PendingUntouched()
      reads this
    {
      && pendingAborts == old(pendingAborts)
      && pendingOrder == old(pendingOrder)
      && unexplainedAborts == old(unexplainedAborts)
    }

    method FinalizePending(page: Page)
      modifies this`pendingAborts, this`pendingOrder, this`unexplainedAborts
      ensures Finalized(page)
    {
      if page in pendingAborts {
        unexplainedAborts := unexplainedAborts + pendingAborts[page].failures;
        DiscardPending(page);
      }
    }

    method SealInactivePending(page: Page)
      modifies this`pendingAborts, this`pendingOrder, this`unexplainedAborts
      ensures if SealInactive(old(View(page))).left then Finalized(page) else PendingUntouched()
    {
      if page in pendingAborts
         && (pendingAborts[page].commitGeneration.None? || page !in activeAttempts
             || pendingAborts[page].commitGeneration != Some(activeAttempts[page].generation)) {
        FinalizePending(page);
      }
    }

    method ResolveRendererNavigationBatch(page: Page, generation: nat, event: nat)
      modifies this`pendingAborts, this`pendingOrder, this`unexplainedAborts
      ensures if page in old(pendingAborts) && old(pendingAborts)[page].generation == generation
                 && old(pendingAborts)[page].lastEvent == event - 1
              then && pendingAborts == old(pendingAborts) - {page}
                   && pendingOrder == Without(old(pendingOrder), page)
                   && unexplainedAborts == old(unexplainedAborts)
              else Finalized(page)
    {
      if page in pendingAborts && pendingAborts[page].generation == generation
         && pendingAborts[page].lastEvent == event - 1 {
        DiscardPending(page);
      } else {
        FinalizePending(page);
      }
    }

    method ResolveCommitBatch(page: Page, generation: nat)
      modifies this`pendingAborts, this`pendingOrder, this`unexplainedAborts
      ensures if page in old(pendingAborts) && old(pendingAborts)[page].commitGeneration == Some(generation)
              then && pendingAborts == old(pendingAborts) - {page}
                   && pendingOrder == Without(old(pendingOrder), page)
                   && unexplainedAborts == old(unexplainedAborts)
              else Finalized(page)
    {
      if page in pendingAborts && pendingAborts[page].commitGeneration == Some(generation) {
        DiscardPending(page);
      } else {
        FinalizePending(page);
      }
    }

    method CloseAttempt(page: Page, generation: Option<nat>)
      modifies this`activeAttempts
      ensures activeAttempts == if EndAttempt(old(View(page)), generation).attempt.Some?
                                then old(activeAttempts) else old(activeAttempts) - {page}
    {
      if page in activeAttempts && Some(activeAttempts[page].generation) == generation {
        activeAttempts := activeAttempts - {page};
      }
    }

    method OpenNavigation(page: Page, mainRequest: Option<Request>) returns (generation: nat)
      modifies this`pageGenerations, this`activeAttempts
      ensures generation == Get(old(pageGenerations), page) + 1
      ensures pageGenerations == old(pageGenerations)[page := generation]
      ensures activeAttempts == old(activeAttempts)[page := Attempt(generation, mainRequest)]
    {
      generation := Get(pageGenerations, page) + 1;
      pageGenerations := pageGenerations[page := generation];
      activeAttempts := activeAttempts[page := Attempt(generation, mainRequest)];
    }

    method EnterNavigation(page: Page, request: Request)
      modifies this`pageGenerations, this`activeAttempts, this`pendingAborts, this`pendingOrder, this`unexplainedAborts
      ensures Stepped(page, EnterMainNavigation(old(View(page)), request))
    {
      if page in activeAttempts && activeAttempts[page].mainRequest.None? {
        SealInactivePending(page);
        activeAttempts := activeAttempts[page := activeAttempts[page].(mainRequest := Some(request))];
      } else {
        ResolveRendererNavigationBatch(page, Get(pageGenerations, page), Get(pageEvents, page));
        var _ := OpenNavigation(page, Some(request));
      }
    }

    method OnRequestStarted(page: Page, request: Request, url: Url, mainFrameNavigation: bool)
      modifies this
      ensures var sameOrigin := allowedOrigin == Some(url.origin);
              var f := RequestStarted(old(View(page)), request, sameOrigin && mainFrameNavigation);
              && Stepped(page, f)
              && requests == old(requests)[request := TrackedRequest(page, f.page, sameOrigin, sameOrigin && mainFrameNavigation)]
    {
      AdvanceEvent(page);
      TouchGeneration(page);
      var sameOrigin := allowedOrigin == Some(url.origin);
      var mainNavigation := sameOrigin && mainFrameNavigation;
      assert Stepped(page, Keep(Next(old(View(page)))));
      var tracked := EnterRequest(page, request, sameOrigin, mainNavigation);
      requests := requests[request := tracked];
    }

    /** The request enters the page's navigation, or seals a batch without one; its record follows. */
    method EnterRequest(page: Page, request: Request, sameOrigin: bool, mainNavigation: bool) returns (tracked: Tracked)
      requires page in pageGenerations && (mainNavigation ==> sameOrigin)
      modifies this`pageGenerations, this`activeAttempts, this`pendingAborts, this`pendingOrder, this`unexplainedAborts
      ensures var v := old(View(page));
              var f := if mainNavigation then EnterMainNavigation(v, request) else SealInactive(v);
              Stepped(page, f) && tracked == TrackedRequest(page, f.page, sameOrigin, mainNavigation)
    {
      var generation, attemptGeneration := pageGenerations[page], None;
      if mainNavigation {
        EnterNavigation(page, request);
        assert View(page).attempt.Some?;
        generation := activeAttempts[page].generation;
        attemptGeneration := Some(generation);
      } else {
        SealInactivePending(page);
        if sameOrigin && page in activeAttempts {
          attemptGeneration := Some(activeAttempts[page].generation);
        }
      }
      tracked := Tracked(page, generation, sameOrigin, attemptGeneration, mainNavigation);
    }

    /** The event counter moves on and the pending batch is reported. */
    method AdvanceAndFinalize(page: Page)
      modifies this`pageEvents, this`pendingAborts, this`pendingOrder, this`unexplainedAborts
      ensures Stepped(page, Finalize(Next(old(View(page)))))
    {
      AdvanceEvent(page);
      FinalizePending(page);
    }

    method FinishMainRequest(tracked: Tracked)
      requires tracked.mainNavigation
      modifies this`pageEvents, this`activeAttempts, this`pendingAborts, this`pendingOrder, this`unexplainedAborts
      ensures Stepped(tracked.page, RequestFinished(old(View(tracked.page)), tracked))
    {
      AdvanceEvent(tracked.page);
      CloseAttempt(tracked.page, tracked.attemptGeneration);
      FinalizePending(tracked.page);
    }

    method FinishOtherRequest(tracked: Tracked)
      requires !tracked.mainNavigation
      modifies this`pageEvents, this`pendingAborts, this`pendingOrder, this`unexplainedAborts
      ensures Stepped(tracked.page, RequestFinished(old(View(tracked.page)), tracked))
    {
      AdvanceEvent(tracked.page);
      SealInactivePending(tracked.page);
    }

    method OnRequestFinished(request: Request)
      modifies this
      ensures request !in old(requests) ==> unchanged(this)
      ensures request in old(requests) ==>
                var t := old(requests)[request];
                Stepped(t.page, RequestFinished(old(View(t.page)), t)) && requests == old(requests) - {request}
    {
      if request !in requests {
        return;
      }
      var tracked := requests[request];
      requests := requests - {request};
      if tracked.mainNavigation {
        FinishMainRequest(tracked);
      } else {
        FinishOtherRequest(tracked);
      }
    }

    method BeginPageClose(page: Page)
      modifies this
      ensures Stepped(page, PageClosing(old(View(page)))) && requests == old(requests)
    {
      AdvanceAndFinalize(page);
      activeAttempts := activeAttempts - {page};
      closingPages := closingPages + {page};
    }

    method BeginNavigation(page: Page) returns (generation: nat)
      modifies this
      ensures Stepped(page, NavigationBegun(old(View(page)))) && requests == old(requests)
      ensures generation == View(page).generation
    {
      AdvanceAndFinalize(page);
      generation := OpenNavigation(page, None);
    }

    /** The batch is settled, and the generation is recorded as committed. */
    method SettleCommit(page: Page, generation: nat)
      modifies this`pendingAborts, this`pendingOrder, this`unexplainedAborts, this`committedGenerations
      ensures committedGenerations == old(committedGenerations)[page := generation]
      ensures if page in old(pendingAborts) && old(pendingAborts)[page].commitGeneration == Some(generation)
                 && Find(old(committedGenerations), page) != Some(generation)
              then && pendingAborts == old(pendingAborts) - {page}
                   && pendingOrder == Without(old(pendingOrder), page)
                   && unexplainedAborts == old(unexplainedAborts)
              else Finalized(page)
    {
      if page in committedGenerations && committedGenerations[page] == generation {
        FinalizePending(page);
      } else {
        ResolveCommitBatch(page, generation);
        committedGenerations := committedGenerations[page := generation];
      }
    }

    method OnNavigationCommitted(page: Page)
      modifies this
      ensures Stepped(page, NavigationCommitted(old(View(page)))) && requests == old(requests)
    {
      AdvanceEvent(page);
      TouchGeneration(page);
      SettleCommit(page, pageGenerations[page]);
      activeAttempts := activeAttempts - {page};
    }

    method OnNavigationFailed(page: Page)
      modifies this
      ensures Stepped(page, NavigationFailed(old(View(page)))) && requests == old(requests)
    {
      AdvanceAndFinalize(page);
      activeAttempts := activeAttempts - {page};
    }

    method CloseMainAttempt(tracked: Option<Tracked>)
      modifies this`activeAttempts
      ensures forall q :: View(q) == if tracked.Some? && tracked.value.page == q
                                     then EndMainAttempt(old(View(q)), tracked) else old(View(q))
    {
      if tracked.Some? && tracked.value.mainNavigation {
        CloseAttempt(tracked.value.page, tracked.value.attemptGeneration);
      }
    }

    method BatchAbort(page: Page, t: Tracked, event: nat, abort: Abort)
      requires event == Get(pageEvents, page)
      modifies this`pendingAborts, this`pendingOrder, this`unexplainedAborts
      ensures var f := AppendAbort(old(View(page)), t, abort);
              Stepped(page, f)
    {
      if page !in pendingAborts
         || pendingAborts[page].generation != t.generation
         || pendingAborts[page].commitGeneration != t.attemptGeneration
         || (pendingAborts[page].lastEvent != event - 1 && pendingAborts[page].commitGeneration.None?) {
        FinalizePending(page);
        pendingAborts := pendingAborts[page := Batch(t.generation, t.attemptGeneration, event, [])];
        pendingOrder := pendingOrder + [page];
      }
      var pending := pendingAborts[page];
      pendingAborts := pendingAborts[page := pending.(lastEvent := event, failures := pending.failures + [abort])];
    }

    /** An abort that is not held back: the batch is reported and the attempt of a main request ends. */
    twostate predicate Settled(page: Page, tracked: Option<Tracked>)
      reads this
    {
      var f := Finalize(Next(old(View(page))));
      && (forall q :: View(q) ==
            var v := if q == page then f.page else old(View(q));
            if tracked.Some? && tracked.value.page == q then EndMainAttempt(v, tracked) else v)
      && pendingOrder == Reorder(old(pendingOrder), page, f)
      && unexplainedAborts == old(unexplainedAborts) + f.reported
      && contextClosing == old(contextClosing)
    }

    method Settle(page: Page, tracked: Option<Tracked>)
      modifies this`pageEvents, this`activeAttempts, this`pendingAborts, this`pendingOrder, this`unexplainedAborts
      ensures Settled(page, tracked)
    {
      AdvanceAndFinalize(page);
      CloseMainAttempt(tracked);
    }

    method TrackAbort(page: Page, request: Request, url: Url, failure: Option<string>) returns (accepted: bool)
      modifies this
      ensures var t := Find(old(requests), request);
              var v := old(View(page));
              var kind := KindOf(allowedOrigin, old(contextClosing), v, t, page, url, failure);
              && requests == old(requests) - {request}
              && accepted == (kind != Foreign)
              && match kind
                 case Batched =>
                   Stepped(page, AppendAbort(EndMainAttempt(Next(v), t), t.value, Abort(url, ERR_ABORTED)))
                 case Superseded => Stepped(page, SealInactive(Next(v)))
                 case _ => Settled(page, t)
    {
      var tracked := Find(requests, request);
      requests := requests - {request};
      if failure != Some(ERR_ABORTED) || allowedOrigin != Some(url.origin) {
        Settle(page, tracked);
        return false;
      }
      if contextClosing || page in closingPages {
        Settle(page, tracked);
        return true;
      }
      if tracked.None? || tracked.value.page != page || !tracked.value.sameOrigin {
        Settle(page, tracked);
        return false;
      }
      HoldAbort(page, tracked.value, url);
      return true;
    }

    /** An abort of a tracked request of the page: older than the page's navigation, or to be held back. */
    method HoldAbort(page: Page, t: Tracked, url: Url)
      requires t.page == page
      modifies this`pageEvents, this`activeAttempts, this`pendingAborts, this`pendingOrder, this`unexplainedAborts
      ensures var v := Next(old(View(page)));
              if t.generation < v.generation then Stepped(page, SealInactive(v))
              else Stepped(page, AppendAbort(EndMainAttempt(v, Some(t)), t, Abort(url, ERR_ABORTED)))
    {
      AdvanceEvent(page);
      if t.generation < Get(pageGenerations, page) {
        SealInactivePending(page);
        return;
      }
      CloseMainAttempt(Some(t));
      BatchAbort(page, t, Get(pageEvents, page), Abort(url, ERR_ABORTED));
    }

    /** Every pending batch is reported, in dictionary order. */
    method FinalizeAllPending()
      requires Valid() && Distinct(pendingOrder)
      modifies this`pendingAborts, this`pendingOrder, this`unexplainedAborts
      ensures pendingAborts == map[] && pendingOrder == []
      ensures unexplainedAborts == old(unexplainedAborts) + Listed(old(pendingAborts), old(pendingOrder))
    {
      var pages := pendingOrder;
      ghost var held := pendingAborts;
      for i := 0 to |pages|
        invariant pendingOrder == pages[i..] && Distinct(pendingOrder)
        invariant forall p :: p in pendingAborts <==> p in pendingOrder
        invariant forall p :: p in pendingAborts ==> p in held && pendingAborts[p] == held[p]
        invariant unexplainedAborts + Listed(held, pendingOrder) == old(unexplainedAborts) + Listed(held, pages)
      {
        DistinctHead(pendingOrder);
        ListedStep(held, pendingOrder, unexplainedAborts);
        assert pages[i..][0] == pages[i] && pages[i..][1..] == pages[i + 1..];
        FinalizePending(pages[i]);
      }
      assert pendingAborts.Keys == {};
    }

    method BeginContextClose()
      requires Valid() && Distinct(pendingOrder)
      modifies this
      ensures forall q :: View(q) == old(View(q)).(batch := None, attempt := None)
      ensures pendingOrder == [] && contextClosing && requests == old(requests)
      ensures unexplainedAborts == old(unexplainedAborts) + Listed(old(pendingAborts), old(pendingOrder))
    {
      FinalizeAllPending();
      activeAttempts := map[];
      contextClosing := true;
    }

    method TakeUnexplainedAborts() returns (unexplained: seq<Abort>)
      requires Valid() && Distinct(pendingOrder)
      modifies this
      ensures forall q :: View(q) == old(View(q)).(batch := None)
      ensures pendingOrder == [] && unexplainedAborts == []
      ensures contextClosing == old(contextClosing) && requests == old(requests)
      ensures unexplained == old(unexplainedAborts) + Listed(old(pendingAborts), old(pendingOrder))
    {
      FinalizeAllPending();
      unexplained := unexplainedAborts;
      unexplainedAborts := [];
    }
  }
}
