/**
 What every run of browser events keeps: no batched abort is lost or duplicated,
 and only two patterns of events explain one silently.
 */
module TrackerTraces {
  import opened Sequences
  import opened Tracker
  import opened Wrappers

  // `FateOf` is the reference. It says what one event does to one pending batch
  // without following the tracker's control flow; the lemmas show that the tracker
  // (module Tracker) gives every batch exactly that fate, and what the fates mean in
  // terms of the events that happened.

  datatype Event =
    | Start(page: Page, request: Request, url: Url, mainFrameNavigation: bool)
    | Finish(request: Request)
    | Close(page: Page)
    | Navigate(page: Page)
    | Commit(page: Page)
    | Fail(page: Page)
    | CloseContext
    | AbortOf(page: Page, request: Request, url: Url, failure: Option<string>)
    | Take

  ghost function Step(s: State, e: Event): State {
    match e
    case Start(p, r, url, nav) => Started(s, p, r, url, nav)
    case Finish(r) => Finished(s, r)
    case Close(p) => Lift(s, p, PageClosing(s.pages[p]))
    case Navigate(p) => Lift(s, p, NavigationBegun(s.pages[p]))
    case Commit(p) => Lift(s, p, NavigationCommitted(s.pages[p]))
    case Fail(p) => Lift(s, p, NavigationFailed(s.pages[p]))
    case CloseContext => ContextClosing(s)
    case AbortOf(p, r, url, failure) => AbortSeen(s, p, r, url, failure)
    case Take => Drained(s).(unexplained := [])
  }

  /** The state after the events `es`, for a tracker built with `origin`. */
  ghost function Run(origin: Option<string>, es: seq<Event>): State {
    if es == [] then Initial(origin) else Step(Run(origin, es[..|es| - 1]), es[|es| - 1])
  }

  // ---- the invariant ----

  /** The attempt, the pending batch and the last commit of a page fit its generation. */
  ghost predicate PageOk(v: PageState, contextClosing: bool) {
    && (v.attempt.Some? ==> v.attempt.value.generation == v.generation)
    && (v.committed.Some? ==> v.committed.value <= v.generation)
    && (v.batch.Some? ==>
          var b := v.batch.value;
          && b.generation == v.generation
          && (b.commitGeneration.None? || b.commitGeneration == Some(v.generation))
          && b.lastEvent <= v.event
          && b.failures != []
          && !v.closing && !contextClosing)
  }

  ghost predicate TrackedOk(s: State, t: Tracked) {
    && t.generation <= s.pages[t.page].generation
    && (t.attemptGeneration.None? || t.attemptGeneration == Some(t.generation))
    && (t.mainNavigation ==> t.sameOrigin && t.attemptGeneration.Some?)
  }

  ghost predicate OrderOk(s: State) {
    Distinct(s.order) && forall p :: p in s.order <==> s.pages[p].batch.Some?
  }

  ghost predicate Inv(s: State) {
    && OrderOk(s)
    && (forall p :: PageOk(s.pages[p], s.contextClosing))
    && (forall r :: r in s.requests ==> TrackedOk(s, s.requests[r]))
  }

  // ---- one event as an effect on the page it touches ----

  /** The page whose event counter `e` advances. */
  ghost function Touches(s: State, e: Event): Option<Page> {
    match e
    case CloseContext => None
    case Take => None
    case Finish(r) => if r in s.requests then Some(s.requests[r].page) else None
    case _ => Some(e.page)
  }

  ghost function Kind(s: State, e: Event): AbortKind
    requires e.AbortOf?
  {
    KindOf(s.allowedOrigin, s.contextClosing, s.pages[e.page], Find(s.requests, e.request), e.page, e.url, e.failure)
  }

  ghost predicate MainNavigation(s: State, e: Event) {
    e.Start? && SameOrigin(s, e.url) && e.mainFrameNavigation
  }

  ghost function AbortEffect(s: State, e: Event, v: PageState): Effect
    requires e.AbortOf?
  {
    match Kind(s, e)
    case Batched =>
      var t := Find(s.requests, e.request);
      AppendAbort(EndMainAttempt(Next(v), t), t.value, Abort(e.url, ERR_ABORTED))
    case Superseded => SealInactive(Next(v))
    case _ => Finalize(Next(v))
  }

  ghost function EffectOn(s: State, e: Event, v: PageState): Effect
    requires Touches(s, e).Some?
  {
    match e
    case Start(_, r, _, _) => RequestStarted(v, r, MainNavigation(s, e))
    case Finish(r) => RequestFinished(v, s.requests[r])
    case Close(_) => PageClosing(v)
    case Navigate(_) => NavigationBegun(v)
    case Commit(_) => NavigationCommitted(v)
    case Fail(_) => NavigationFailed(v)
    case AbortOf(_, _, _, _) => AbortEffect(s, e, v)
  }

  /** The same page apart from its attempt, which may have ended. */
  ghost predicate SameButAttempt(v: PageState, w: PageState) {
    w == v || w == v.(attempt := None)
  }

  /** What a step does to the tracker, through the effect on the touched page. */
  ghost predicate Moved(s: State, s': State, p: Page, f: Effect) {
    && SameButAttempt(f.page, s'.pages[p])
    && (forall q :: q != p ==> SameButAttempt(s.pages[q], s'.pages[q]))
    && s'.order == Reorder(s.order, p, f)
    && s'.unexplained == s.unexplained + f.reported
    && s'.contextClosing == s.contextClosing && s'.allowedOrigin == s.allowedOrigin
  }

  lemma LiftMoves(s: State, p: Page, f: Effect)
    ensures Moved(s, Lift(s, p, f), p, f)
  {
  }

  lemma AbortMoves(s: State, e: Event)
    requires e.AbortOf?
    ensures Moved(s, Step(s, e), e.page, AbortEffect(s, e, s.pages[e.page]))
  {
  }

  lemma StepMoves(s: State, e: Event)
    requires Touches(s, e).Some?
    ensures var p := Touches(s, e).value; Moved(s, Step(s, e), p, EffectOn(s, e, s.pages[p]))
  {
    if e.AbortOf? {
      AbortMoves(s, e);
    } else {
      LiftMoves(s, Touches(s, e).value, EffectOn(s, e, s.pages[Touches(s, e).value]));
    }
  }

  /** The flags of an effect tell what happened to the batch of its page. */
  ghost predicate Coherent(v: PageState, f: Effect) {
    && (f.left ==> v.batch.Some?)
    && (f.page.batch.Some? <==> f.joined || (v.batch.Some? && !f.left))
    && (f.joined ==> v.batch.None? || f.left)
    && f.page.generation >= v.generation
  }

  /** An effect is told truly and leaves the page in order. */
  ghost predicate Fits(v: PageState, f: Effect, contextClosing: bool) {
    Coherent(v, f) && PageOk(f.page, contextClosing)
  }

  lemma StartFits(v: PageState, r: Request, mainNavigation: bool, contextClosing: bool)
    requires PageOk(v, contextClosing)
    ensures Fits(v, RequestStarted(v, r, mainNavigation), contextClosing)
  {
  }

  lemma FinishFits(v: PageState, t: Tracked, contextClosing: bool)
    requires PageOk(v, contextClosing)
    ensures Fits(v, RequestFinished(v, t), contextClosing)
  {
  }

  lemma LifecycleFits(v: PageState, contextClosing: bool)
    requires PageOk(v, contextClosing)
    ensures Fits(v, PageClosing(v), contextClosing) && Fits(v, NavigationBegun(v), contextClosing)
    ensures Fits(v, NavigationCommitted(v), contextClosing) && Fits(v, NavigationFailed(v), contextClosing)
  {
  }

  lemma BatchedFits(s: State, e: Event, v: PageState)
    requires e.AbortOf? && v == s.pages[e.page] && PageOk(v, s.contextClosing) && Kind(s, e) == Batched
    requires TrackedOk(s, s.requests[e.request])
    ensures Fits(v, AbortEffect(s, e, v), s.contextClosing)
  {
  }

  lemma AbortFits(s: State, e: Event, v: PageState)
    requires e.AbortOf? && v == s.pages[e.page] && PageOk(v, s.contextClosing)
    requires e.request in s.requests ==> TrackedOk(s, s.requests[e.request])
    ensures Fits(v, AbortEffect(s, e, v), s.contextClosing)
  {
    if Kind(s, e) == Batched { BatchedFits(s, e, v); }
  }

  lemma EffectFits(s: State, e: Event, v: PageState)
    requires Touches(s, e).Some? && v == s.pages[Touches(s, e).value] && PageOk(v, s.contextClosing)
    requires e.AbortOf? && e.request in s.requests ==> TrackedOk(s, s.requests[e.request])
    ensures Fits(v, EffectOn(s, e, v), s.contextClosing)
  {
    match e
    case AbortOf(_, _, _, _) => AbortFits(s, e, v);
    case Start(_, r, _, _) => StartFits(v, r, MainNavigation(s, e), s.contextClosing);
    case Finish(r) => FinishFits(v, s.requests[r], s.contextClosing);
    case _ => LifecycleFits(v, s.contextClosing);
  }

  lemma MovedOrder(s: State, s': State, p: Page, f: Effect)
    requires OrderOk(s) && Moved(s, s', p, f) && Coherent(s.pages[p], f)
    ensures OrderOk(s')
  {
    WithoutElements(s.order, p);
    var kept := if f.left then Without(s.order, p) else s.order;
    if f.joined { DistinctAppend(kept, p); } else { assert s'.order == kept; }
    forall q ensures q in s'.order <==> s'.pages[q].batch.Some? {
      assert q in s'.order <==> q in kept || (q == p && f.joined);
    }
  }

  lemma MovedPages(s: State, s': State, p: Page, f: Effect)
    requires Moved(s, s', p, f) && PageOk(f.page, s.contextClosing) && Coherent(s.pages[p], f)
    requires forall q :: PageOk(s.pages[q], s.contextClosing)
    ensures forall q :: PageOk(s'.pages[q], s'.contextClosing) && s'.pages[q].generation >= s.pages[q].generation
  {
    forall q ensures PageOk(s'.pages[q], s'.contextClosing) && s'.pages[q].generation >= s.pages[q].generation {
      assert PageOk(s.pages[q], s.contextClosing);
    }
  }

  /** A request keeps its record until it ends; a new record names the generation the page now has. */
  lemma StepRequests(s: State, e: Event, r: Request)
    requires r in Step(s, e).requests
    requires e.Start? ==> PageOk(s.pages[e.page], s.contextClosing)
    ensures if e.Start? && e.request == r
            then Step(s, e).requests[r].page == e.page && TrackedOk(Step(s, e), Step(s, e).requests[r])
                 && Step(s, e).requests[r].generation == Step(s, e).pages[e.page].generation
            else r in s.requests && Step(s, e).requests[r] == s.requests[r]
  {
  }

  /** Generations only grow, and each touched page moves by its effect. */
  lemma StepPages(s: State, e: Event)
    requires Inv(s)
    ensures forall q :: PageOk(Step(s, e).pages[q], Step(s, e).contextClosing)
                        && Step(s, e).pages[q].generation >= s.pages[q].generation
    ensures OrderOk(Step(s, e))
  {
    assert forall q :: PageOk(s.pages[q], s.contextClosing);
    if Touches(s, e).Some? {
      var p := Touches(s, e).value;
      StepMoves(s, e);
      EffectFits(s, e, s.pages[p]);
      MovedOrder(s, Step(s, e), p, EffectOn(s, e, s.pages[p]));
      MovedPages(s, Step(s, e), p, EffectOn(s, e, s.pages[p]));
    }
  }

  /**
   Every event keeps the invariant: a pending batch and an active attempt carry the
   page's current generation, and a closing page or context holds no pending batch.
   */
  lemma StepKeepsInv(s: State, e: Event)
    requires Inv(s)
    ensures Inv(Step(s, e))
  {
    StepPages(s, e);
    var s' := Step(s, e);
    forall r | r in s'.requests ensures TrackedOk(s', s'.requests[r]) {
      if e.Start? { assert PageOk(s.pages[e.page], s.contextClosing); }
      StepRequests(s, e, r);
    }
  }

  lemma {:induction false} RunInv(origin: Option<string>, es: seq<Event>)
    ensures Inv(Run(origin, es))
  {
    if es != [] {
      RunInv(origin, es[..|es| - 1]);
      StepKeepsInv(Run(origin, es[..|es| - 1]), es[|es| - 1]);
    }
  }

  // ---- what one event does to a pending batch ----

  /** `e` is an abort the tracker holds back for the batch of `p`. */
  ghost predicate Batches(s: State, e: Event, p: Page) {
    e.AbortOf? && e.page == p && Kind(s, e) == Batched
  }

  datatype Fate = Stays | Explained | Reported

  /** A batch of an attempt outlives an unrelated event while that attempt is active; any other batch does not. */
  ghost function WhileAttemptLives(v: PageState): Fate
    requires v.batch.Some?
  {
    if v.batch.value.commitGeneration.Some? && v.attempt.Some? then Stays else Reported
  }

  ghost function FateOf(s: State, e: Event, p: Page): Fate
    requires s.pages[p].batch.Some?
  {
    var v := s.pages[p];
    var ofAttempt, justNow := v.batch.value.commitGeneration.Some?, v.batch.value.lastEvent == v.event;
    if e.CloseContext? || e.Take? then Reported
    else if Touches(s, e) != Some(p) then Stays
    else match e
      case Start(_, _, _, _) =>
        if !MainNavigation(s, e) || AwaitsMainRequest(v) then WhileAttemptLives(v)
        else if justNow then Explained else Reported
      case Finish(r) => if s.requests[r].mainNavigation then Reported else WhileAttemptLives(v)
      case Commit(_) => if ofAttempt && v.committed != Some(v.generation) then Explained else Reported
      case AbortOf(_, r, _, _) =>
        (match Kind(s, e)
         case Batched =>
           if s.requests[r].attemptGeneration.Some? == ofAttempt && (ofAttempt || justNow) then Stays else Reported
         case Superseded => WhileAttemptLives(v)
         case _ => Reported)
      case _ => Reported
  }

  /** The abort `e` adds to the batch of `p`. */
  ghost function Joins(s: State, e: Event, p: Page): seq<Abort> {
    if Batches(s, e, p) then [Abort(e.url, ERR_ABORTED)] else []
  }

  /** What leaves the pending dictionary for `p` when `e` happens. */
  ghost function Leaves(s: State, e: Event, p: Page): seq<Abort> {
    if s.pages[p].batch.Some? && FateOf(s, e, p) != Stays then Held(s, p) else []
  }

  /** Of that, what is reported. */
  ghost function Reports(s: State, e: Event, p: Page): seq<Abort> {
    if s.pages[p].batch.Some? && FateOf(s, e, p) == Reported then Held(s, p) else []
  }

  /** What an effect reports and keeps is what the fate of the batch says. */
  ghost predicate FollowsFate(s: State, e: Event, p: Page, f: Effect) {
    f.reported == Reports(s, e, p) && Leaves(s, e, p) + Failures(f.page) == Held(s, p) + Joins(s, e, p)
  }

  lemma BatchedFollowsFate(s: State, e: Event, p: Page)
    requires e.AbortOf? && p == e.page && PageOk(s.pages[p], s.contextClosing) && Kind(s, e) == Batched
    requires TrackedOk(s, s.requests[e.request])
    ensures FollowsFate(s, e, p, AbortEffect(s, e, s.pages[p]))
  {
  }

  lemma AbortFollowsFate(s: State, e: Event, p: Page)
    requires e.AbortOf? && p == e.page && PageOk(s.pages[p], s.contextClosing)
    requires e.request in s.requests ==> TrackedOk(s, s.requests[e.request])
    ensures FollowsFate(s, e, p, AbortEffect(s, e, s.pages[p]))
  {
    if Kind(s, e) == Batched { BatchedFollowsFate(s, e, p); }
  }

  lemma StartFollowsFate(s: State, e: Event, p: Page)
    requires e.Start? && p == e.page && PageOk(s.pages[p], s.contextClosing)
    ensures FollowsFate(s, e, p, RequestStarted(s.pages[p], e.request, MainNavigation(s, e)))
  {
  }

  lemma FinishFollowsFate(s: State, e: Event, p: Page)
    requires e.Finish? && Touches(s, e) == Some(p) && PageOk(s.pages[p], s.contextClosing)
    requires TrackedOk(s, s.requests[e.request])
    ensures FollowsFate(s, e, p, RequestFinished(s.pages[p], s.requests[e.request]))
  {
  }

  lemma LifecycleFollowsFate(s: State, e: Event, p: Page)
    requires (e.Close? || e.Navigate? || e.Commit? || e.Fail?) && p == e.page && PageOk(s.pages[p], s.contextClosing)
    ensures FollowsFate(s, e, p, EffectOn(s, e, s.pages[p]))
  {
  }

  /** On the touched page the effect and the fate agree. */
  lemma EffectFollowsFate(s: State, e: Event, p: Page)
    requires Touches(s, e) == Some(p) && PageOk(s.pages[p], s.contextClosing)
    requires (e.Finish? || e.AbortOf?) && e.request in s.requests ==> TrackedOk(s, s.requests[e.request])
    ensures FollowsFate(s, e, p, EffectOn(s, e, s.pages[p]))
  {
    match e
    case AbortOf(_, _, _, _) => AbortFollowsFate(s, e, p);
    case Start(_, _, _, _) => StartFollowsFate(s, e, p);
    case Finish(_) => FinishFollowsFate(s, e, p);
    case _ => LifecycleFollowsFate(s, e, p);
  }

  /** The tracker gives each pending batch exactly its fate, and a new abort joins one batch once. */
  lemma StepFollowsFate(s: State, e: Event, p: Page)
    requires Inv(s)
    ensures Leaves(s, e, p) + Held(Step(s, e), p) == Held(s, p) + Joins(s, e, p)
  {
    if Touches(s, e) == Some(p) {
      StepMoves(s, e);
      assert PageOk(s.pages[p], s.contextClosing);
      EffectFollowsFate(s, e, p);
    } else if Touches(s, e).Some? {
      StepMoves(s, e);
      NothingLeaves(s, e, p);
    }
  }

  lemma NothingLeaves(s: State, e: Event, p: Page)
    requires Touches(s, e).Some? && Touches(s, e) != Some(p)
    ensures Leaves(s, e, p) == [] && Joins(s, e, p) == []
  {
  }

  ghost function ReportsOf(s: State, e: Event, pages: seq<Page>): seq<Abort> {
    if pages == [] then [] else Reports(s, e, pages[0]) + ReportsOf(s, e, pages[1..])
  }

  /** Only the touched page can have a batch reported. */
  lemma {:induction false} ReportsOfOne(s: State, e: Event, pages: seq<Page>)
    requires Distinct(pages) && !e.CloseContext? && !e.Take?
    ensures ReportsOf(s, e, pages)
         == if Touches(s, e).Some? && Touches(s, e).value in pages then Reports(s, e, Touches(s, e).value) else []
  {
    if pages != [] {
      DistinctRest(pages);
      ReportsOfOne(s, e, pages[1..]);
      if Touches(s, e) != Some(pages[0]) { NothingReported(s, e, pages[0]); }
    }
  }

  lemma NothingReported(s: State, e: Event, p: Page)
    requires Touches(s, e) != Some(p) && !e.CloseContext? && !e.Take?
    ensures Reports(s, e, p) == []
  {
  }

  lemma {:induction false} ReportsOfAll(s: State, e: Event, pages: seq<Page>)
    requires e.CloseContext? || e.Take?
    ensures ReportsOf(s, e, pages) == AllHeld(s, pages)
  {
    if pages != [] { ReportsOfAll(s, e, pages[1..]); }
  }

  ghost function TakenAt(s: State, e: Event): seq<Abort> {
    if e.Take? then Drained(s).unexplained else []
  }

  lemma TouchedReports(s: State, e: Event, p: Page)
    requires Inv(s) && Touches(s, e) == Some(p)
    ensures Step(s, e).unexplained == s.unexplained + Reports(s, e, p)
  {
    StepMoves(s, e);
    assert PageOk(s.pages[p], s.contextClosing);
    EffectFollowsFate(s, e, p);
  }

  /** The unexplained list grows by exactly the reported batches, in dictionary order. */
  lemma StepReports(s: State, e: Event)
    requires Inv(s)
    ensures TakenAt(s, e) + Step(s, e).unexplained == s.unexplained + ReportsOf(s, e, s.order)
  {
    if e.CloseContext? || e.Take? {
      ReportsOfAll(s, e, s.order);
    } else if Touches(s, e).Some? {
      ReportsOfOne(s, e, s.order);
      TouchedReports(s, e, Touches(s, e).value);
    } else {
      ReportsOfOne(s, e, s.order);
    }
  }
}
