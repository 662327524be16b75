/**
 The fixture's wiring of browser events to the tracker: each event calls one
 method, and the object then holds the state of the run.
 */
module TrackerWiring {
  import opened Tracker
  import opened TrackerTraces
  import opened TrackerRuns
  import opened Wrappers

  /** Two states that differ by an effect on one page, and in the request records. */
  lemma Lifts(s: State, s': State, p: Page, f: Effect)
    requires s'.pages[p] == f.page && forall q :: q != p ==> s'.pages[q] == s.pages[q]
    requires s'.order == Reorder(s.order, p, f) && s'.unexplained == s.unexplained + f.reported
    requires s'.contextClosing == s.contextClosing && s'.allowedOrigin == s.allowedOrigin
    ensures s' == Lift(s, p, f).(requests := s'.requests)
  {
    assert s'.pages == Lift(s, p, f).pages;
  }

  lemma LiftsAndEnds(s: State, s': State, p: Page, f: Effect, t: Option<Tracked>)
    requires forall q :: s'.pages[q] ==
               var v := if q == p then f.page else s.pages[q];
               if t.Some? && t.value.page == q then EndMainAttempt(v, t) else v
    requires s'.order == Reorder(s.order, p, f) && s'.unexplained == s.unexplained + f.reported
    requires s'.contextClosing == s.contextClosing && s'.allowedOrigin == s.allowedOrigin
    ensures var s2 := Lift(s, p, f);
            s' == (if t.Some? then s2.(pages := s2.pages[t.value.page := EndMainAttempt(s2.pages[t.value.page], t)])
                   else s2).(requests := s'.requests)
  {
    var s2 := Lift(s, p, f);
    if t.Some? {
      assert s'.pages == s2.pages[t.value.page := EndMainAttempt(s2.pages[t.value.page], t)];
    } else {
      assert s'.pages == s2.pages;
    }
  }

  method StartedRequest(t: NavigationCancellationTracker, e: Event)
    requires e.Start?
    modifies t
    ensures t.Snapshot() == Step(old(t.Snapshot()), e)
  {
    ghost var s := t.Snapshot();
    ghost var f := RequestStarted(t.View(e.page), e.request, t.allowedOrigin == Some(e.url.origin) && e.mainFrameNavigation);
    t.OnRequestStarted(e.page, e.request, e.url, e.mainFrameNavigation);
    Lifts(s, t.Snapshot(), e.page, f);
  }

  method FinishedRequest(t: NavigationCancellationTracker, e: Event)
    requires e.Finish?
    modifies t
    ensures t.Snapshot() == Step(old(t.Snapshot()), e)
  {
    ghost var tracked := Find(t.requests, e.request);
    ghost var s := t.Snapshot();
    ghost var f := if tracked.Some? then Some(RequestFinished(t.View(tracked.value.page), tracked.value)) else None;
    t.OnRequestFinished(e.request);
    if tracked.Some? { Lifts(s, t.Snapshot(), tracked.value.page, f.value); }
  }

  method Lifecycle(t: NavigationCancellationTracker, e: Event)
    requires e.Close? || e.Navigate? || e.Commit? || e.Fail?
    modifies t
    ensures t.Snapshot() == Step(old(t.Snapshot()), e)
  {
    ghost var s := t.Snapshot();
    ghost var f := EffectOn(t.Snapshot(), e, t.View(e.page));
    if e.Close? {
      t.BeginPageClose(e.page);
    } else if e.Navigate? {
      var _ := t.BeginNavigation(e.page);
    } else if e.Commit? {
      t.OnNavigationCommitted(e.page);
    } else {
      t.OnNavigationFailed(e.page);
    }
    Lifts(s, t.Snapshot(), e.page, f);
  }

  method FailedRequest(t: NavigationCancellationTracker, e: Event) returns (accepted: bool)
    requires e.AbortOf?
    modifies t
    ensures t.Snapshot() == Step(old(t.Snapshot()), e)
    ensures accepted == (Kind(old(t.Snapshot()), e) != Foreign)
  {
    ghost var tracked, kind := Find(t.requests, e.request), Kind(t.Snapshot(), e);
    ghost var s := t.Snapshot();
    ghost var f := AbortEffect(t.Snapshot(), e, t.View(e.page));
    accepted := t.TrackAbort(e.page, e.request, e.url, e.failure);
    if kind == Batched || kind == Superseded {
      Lifts(s, t.Snapshot(), e.page, f);
    } else {
      LiftsAndEnds(s, t.Snapshot(), e.page, f, tracked);
    }
  }

  method TakeAll(t: NavigationCancellationTracker) returns (taken: seq<Abort>)
    requires OrderOk(t.Snapshot())
    modifies t
    ensures t.Snapshot() == Step(old(t.Snapshot()), Take) && taken == TakenAt(old(t.Snapshot()), Take)
  {
    t.ListedIsHeld(t.pendingOrder);
    ghost var s := t.Snapshot();
    assert forall p :: p in s.order <==> s.pages[p].batch.Some?;
    taken := t.TakeUnexplainedAborts();
    assert t.Snapshot().pages == Step(s, Take).pages;
  }

  method CloseAll(t: NavigationCancellationTracker)
    requires OrderOk(t.Snapshot())
    modifies t
    ensures t.Snapshot() == Step(old(t.Snapshot()), CloseContext)
  {
    t.ListedIsHeld(t.pendingOrder);
    ghost var s := t.Snapshot();
    assert forall p :: p in s.order <==> s.pages[p].batch.Some?;
    t.BeginContextClose();
    assert t.Snapshot().pages == Step(s, CloseContext).pages;
  }

  /** Whatever the event, the tracker goes to the state the run prescribes and keeps the invariant. */
  method Dispatch(t: NavigationCancellationTracker, e: Event) returns (accepted: bool, taken: seq<Abort>)
    requires Inv(t.Snapshot())
    modifies t
    ensures t.Snapshot() == Step(old(t.Snapshot()), e) && Inv(t.Snapshot())
    ensures e.AbortOf? ==> accepted == (Kind(old(t.Snapshot()), e) != Foreign)
    ensures taken == TakenAt(old(t.Snapshot()), e)
  {
    StepKeepsInv(t.Snapshot(), e);
    accepted, taken := false, [];
    if e.Start? {
      StartedRequest(t, e);
    } else if e.Finish? {
      FinishedRequest(t, e);
    } else if e.AbortOf? {
      accepted := FailedRequest(t, e);
    } else if e.CloseContext? {
      CloseAll(t);
    } else if e.Take? {
      taken := TakeAll(t);
    } else {
      Lifecycle(t, e);
    }
  }

  /** A whole run on a new tracker: the object holds the state of the run, and what was taken is what the run says. */
  method Replay(origin: Option<string>, es: seq<Event>) returns (t: NavigationCancellationTracker, taken: seq<Abort>)
    ensures t.Snapshot() == Run(origin, es) && Inv(t.Snapshot())
    ensures taken == TakenIn(origin, es)
  {
    t := new NavigationCancellationTracker(origin);
    taken := [];
    RunInv(origin, []);
    assert t.Snapshot().pages == Initial(origin).pages;
    for i := 0 to |es|
      invariant fresh(t) && t.Snapshot() == Run(origin, es[..i]) && Inv(t.Snapshot())
      invariant taken == TakenIn(origin, es[..i])
    {
      assert es[..i + 1][..i] == es[..i] && Init(es[..i + 1]) == es[..i] && Last(es[..i + 1]) == es[i];
      var _, more := Dispatch(t, es[i]);
      taken := taken + more;
    }
    assert es[..|es|] == es;
  }
}
