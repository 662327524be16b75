/**
 What the tracker's records, attempts and batches mean in terms of the events of a run.
 */
module TrackerRecords {
  import opened Sequences
  import opened Tracker
  import opened TrackerTraces
  import opened TrackerRuns
  import opened Wrappers

  // The tracker decides by fields of its dictionaries. Here each field is traced to the events
  // that set it, so the decisions can be read off the run.

  // ---- generations and attempts ----

  /** `e` starts a navigation request of the main frame of `p` to the allowed origin. */
  ghost predicate IsMainStart(s: State, e: Event, p: Page) {
    e.Start? && e.page == p && s.allowedOrigin == Some(e.url.origin) && e.mainFrameNavigation
  }

  /** The page has announced a navigation whose main request has not been seen. */
  ghost predicate Awaits(v: PageState) {
    v.attempt.Some? && v.attempt.value.mainRequest == None
  }

  /** `e` begins a navigation of `p`: an announced one, or one whose main request comes unannounced. */
  ghost predicate Opens(s: State, e: Event, p: Page) {
    e == Navigate(p) || (IsMainStart(s, e, p) && !Awaits(s.pages[p]))
  }

  /** `e` ends the main request that the attempt of `p` belongs to. */
  ghost predicate EndsMainRequest(s: State, e: Event, p: Page) {
    && (e.Finish? || e.AbortOf?) && e.request in s.requests && s.pages[p].attempt.Some?
    && var t := s.requests[e.request];
       t.page == p && t.mainNavigation && t.attemptGeneration == Some(s.pages[p].attempt.value.generation)
  }

  /** `e` ends the attempt of `p`. */
  ghost predicate EndsAttempt(s: State, e: Event, p: Page) {
    e == Commit(p) || e == Fail(p) || e == Close(p) || e == CloseContext || EndsMainRequest(s, e, p)
  }

  ghost predicate AttemptMoves(s: State, e: Event, p: Page, w: PageState) {
    var v := s.pages[p];
    && w.generation == (if Opens(s, e, p) then v.generation + 1 else v.generation)
    && w.attempt ==
         if Opens(s, e, p) then Some(Attempt(v.generation + 1, if e.Start? then Some(e.request) else None))
         else if IsMainStart(s, e, p) then Some(Attempt(v.generation, Some(e.request)))
         else if EndsAttempt(s, e, p) then None
         else v.attempt
  }

  lemma LifecycleMovesAttempt(s: State, e: Event, p: Page)
    requires Inv(s) && (e.Close? || e.Navigate? || e.Commit? || e.Fail?) && e.page == p
    ensures AttemptMoves(s, e, p, Step(s, e).pages[p])
  {
  }

  lemma RequestMovesAttempt(s: State, e: Event, p: Page)
    requires Inv(s) && ((e.Start? && e.page == p) || (e.Finish? && e.request in s.requests && s.requests[e.request].page == p))
    ensures AttemptMoves(s, e, p, Step(s, e).pages[p])
  {
    assert PageOk(s.pages[p], s.contextClosing);
  }

  lemma HeldAbortMovesAttempt(s: State, e: Event, p: Page)
    requires Inv(s) && e.AbortOf? && (Kind(s, e) == Batched || Kind(s, e) == Superseded)
    ensures AttemptMoves(s, e, p, Step(s, e).pages[p])
  {
    assert PageOk(s.pages[p], s.contextClosing) && TrackedOk(s, s.requests[e.request]);
  }

  lemma SettledAbortMovesAttempt(s: State, e: Event, p: Page)
    requires Inv(s) && e.AbortOf? && (Kind(s, e) == Foreign || Kind(s, e) == Closing)
    ensures AttemptMoves(s, e, p, Step(s, e).pages[p])
  {
    assert PageOk(s.pages[p], s.contextClosing);
  }

  /** One event opens, claims, ends or keeps the attempt of a page, and only an opening moves its generation on. */
  lemma AttemptStep(s: State, e: Event, p: Page)
    requires Inv(s)
    ensures AttemptMoves(s, e, p, Step(s, e).pages[p])
  {
    if e.AbortOf? {
      if Kind(s, e) == Batched || Kind(s, e) == Superseded { HeldAbortMovesAttempt(s, e, p); } else { SettledAbortMovesAttempt(s, e, p); }
    } else if Touches(s, e) == Some(p) {
      if e.Start? || e.Finish? { RequestMovesAttempt(s, e, p); } else { LifecycleMovesAttempt(s, e, p); }
    }
  }

  ghost function Openings(o: Option<string>, es: seq<Event>, p: Page): nat {
    if es == [] then 0 else Openings(o, Init(es), p) + if Opens(Run(o, Init(es)), Last(es), p) then 1 else 0
  }

  /** The generation of a page is the number of its navigations so far. */
  lemma {:induction false} GenerationCounts(o: Option<string>, es: seq<Event>, p: Page)
    ensures Run(o, es).pages[p].generation == Openings(o, es, p)
  {
    if es != [] {
      GenerationCounts(o, Init(es), p);
      RunInv(o, Init(es));
      AttemptStep(Run(o, Init(es)), Last(es), p);
    }
  }

  // ---- records ----

  /** `e` uses up the record of `r`, or replaces it. */
  ghost predicate Concerns(e: Event, r: Request) {
    (e.Start? || e.Finish? || e.AbortOf?) && e.request == r
  }

  /** Event `i` is the latest about `r`, starts it, and `t` says so of page, origin, frame, generation and attempt. */
  ghost predicate IsRecord(o: Option<string>, es: seq<Event>, r: Request, t: Tracked, i: nat) {
    && i < |es| && es[i].Start? && es[i].request == r && (forall j :: i < j < |es| ==> !Concerns(es[j], r))
    && var v := At(o, es, i + 1).pages[es[i].page];
       && t.page == es[i].page && t.generation == v.generation
       && (t.sameOrigin <==> o == Some(es[i].url.origin))
       && (t.mainNavigation <==> t.sameOrigin && es[i].mainFrameNavigation)
       && (t.attemptGeneration == if t.sameOrigin && v.attempt.Some? then Some(v.generation) else None)
  }

  lemma {:induction false} OriginStays(o: Option<string>, es: seq<Event>)
    ensures Run(o, es).allowedOrigin == o
  {
    if es != [] {
      OriginStays(o, Init(es));
      var s, e := Run(o, Init(es)), Last(es);
      if Touches(s, e).Some? { StepMoves(s, e); }
    }
  }

  /** The record an event of a start writes. */
  lemma StartWrites(s: State, e: Event)
    requires Inv(s) && e.Start?
    ensures e.request in Step(s, e).requests
    ensures var t, v := Step(s, e).requests[e.request], Step(s, e).pages[e.page];
            && t.page == e.page && t.generation == v.generation
            && (t.sameOrigin <==> s.allowedOrigin == Some(e.url.origin))
            && (t.mainNavigation <==> t.sameOrigin && e.mainFrameNavigation)
            && (t.attemptGeneration == if t.sameOrigin && v.attempt.Some? then Some(v.generation) else None)
  {
    assert PageOk(s.pages[e.page], s.contextClosing);
  }

  /** A record stays until an event about its request. */
  lemma RecordsStep(s: State, e: Event, r: Request)
    ensures !Concerns(e, r) ==> Find(Step(s, e).requests, r) == Find(s.requests, r)
    ensures Concerns(e, r) && !e.Start? ==> r !in Step(s, e).requests
  {
  }

  /** Two records of the same start are the same. */
  lemma OneRecord(o: Option<string>, es: seq<Event>, r: Request, t: Tracked, i: nat, u: Tracked, j: nat)
    requires IsRecord(o, es, r, t, i) && IsRecord(o, es, r, u, j)
    ensures t == u && i == j
  {
    assert Concerns(es[i], r) && Concerns(es[j], r);
  }

  lemma RecordBefore(o: Option<string>, es: seq<Event>, r: Request, t: Tracked, i: nat)
    requires es != [] && i < |es| - 1
    ensures IsRecord(o, es, r, t, i) <==> IsRecord(o, Init(es), r, t, i) && !Concerns(Last(es), r)
  {
    StartedBeforeToo(o, es, i);
    if IsRecord(o, Init(es), r, t, i) && !Concerns(Last(es), r) {
      forall j | i < j < |es| ensures !Concerns(es[j], r) { if j < |es| - 1 { assert es[j] == Init(es)[j]; } }
    }
    if IsRecord(o, es, r, t, i) {
      forall j | i < j < |Init(es)| ensures !Concerns(Init(es)[j], r) { assert es[j] == Init(es)[j]; }
    }
  }

  lemma RecordNow(o: Option<string>, es: seq<Event>, r: Request, t: Tracked)
    requires es != []
    ensures IsRecord(o, es, r, t, |es| - 1) <==> Last(es).Start? && Last(es).request == r && Find(Run(o, es).requests, r) == Some(t)
  {
    RunInv(o, Init(es));
    OriginStays(o, Init(es));
    AtInit(o, es, |es| - 1);
    if Last(es).Start? { StartWrites(Run(o, Init(es)), Last(es)); }
  }

  /** A request has a record exactly when its latest event started it, and the record says how. */
  lemma {:induction false} RecordIff(o: Option<string>, es: seq<Event>, r: Request, t: Tracked)
    ensures Find(Run(o, es).requests, r) == Some(t) <==> exists i: nat :: IsRecord(o, es, r, t, i)
  {
    if es != [] {
      RecordIff(o, Init(es), r, t);
      RecordNow(o, es, r, t);
      RecordsStep(Run(o, Init(es)), Last(es), r);
      forall i: nat | i < |es| - 1
        ensures IsRecord(o, es, r, t, i) <==> IsRecord(o, Init(es), r, t, i) && !Concerns(Last(es), r)
      {
        RecordBefore(o, es, r, t, i);
      }
      if Find(Run(o, es).requests, r) == Some(t) && !(Last(es).Start? && Last(es).request == r) {
        var i: nat :| IsRecord(o, Init(es), r, t, i);
        assert IsRecord(o, es, r, t, i);
      }
    }
  }

  // ---- which aborts are accepted, and which are batched ----

  /** The failure is an abort of a request to the allowed origin. */
  ghost predicate IsAbort(o: Option<string>, e: Event) {
    e.AbortOf? && e.failure == Some("net::ERR_ABORTED") && o == Some(e.url.origin)
  }

  ghost predicate IsClosing(es: seq<Event>, p: Page) {
    CloseContext in es || Close(p) in es
  }

  /** The request was started on the page, to the allowed origin, and is still under way. */
  ghost predicate IsUnderWay(o: Option<string>, es: seq<Event>, e: Event, t: Tracked)
    requires e.AbortOf?
  {
    t.page == e.page && t.sameOrigin && exists i: nat :: IsRecord(o, es, e.request, t, i)
  }

  /** What becomes of a failure, told by the run: the failures that are no concern, and the three kinds of accepted ones. */
  lemma AbortKindIff(o: Option<string>, es: seq<Event>, e: Event)
    requires e.AbortOf?
    ensures Kind(Run(o, es), e) == Closing <==> IsAbort(o, e) && IsClosing(es, e.page)
    ensures Kind(Run(o, es), e) == Batched
       <==> && IsAbort(o, e) && !IsClosing(es, e.page)
            && exists t :: IsUnderWay(o, es, e, t) && t.generation == Run(o, es).pages[e.page].generation
    ensures Kind(Run(o, es), e) == Superseded
       <==> && IsAbort(o, e) && !IsClosing(es, e.page)
            && exists t :: IsUnderWay(o, es, e, t) && t.generation < Run(o, es).pages[e.page].generation
    ensures Kind(Run(o, es), e) == Foreign
       <==> !IsAbort(o, e) || (!IsClosing(es, e.page) && forall t :: !IsUnderWay(o, es, e, t))
  {
    OriginStays(o, es);
    ClosingWasAnnounced(o, es, e.page);
    forall t ensures IsUnderWay(o, es, e, t) <==> Find(Run(o, es).requests, e.request) == Some(t) && t.page == e.page && t.sameOrigin {
      RecordIff(o, es, e.request, t);
    }
    RunInv(o, es);
    if e.request in Run(o, es).requests { assert TrackedOk(Run(o, es), Run(o, es).requests[e.request]); }
  }

  // ---- what a batch holds ----

  /** Event `k` batched this abort of a request with this generation and attempt. */
  ghost predicate BatchedAt(o: Option<string>, es: seq<Event>, p: Page, k: int, b: Batch, abort: Abort) {
    && 0 <= k < |es| && Batches(At(o, es, k), es[k], p) && abort == Abort(es[k].url, "net::ERR_ABORTED")
    && exists t :: Find(At(o, es, k).requests, es[k].request) == Some(t)
                   && t.generation == b.generation && t.attemptGeneration == b.commitGeneration
  }

  /** The batch holds the aborts batched by these events, in their order. */
  ghost predicate HoldsAborts(o: Option<string>, es: seq<Event>, p: Page, b: Batch, ks: seq<int>) {
    && |ks| == |b.failures|
    && (forall j :: 0 <= j < |ks| ==> BatchedAt(o, es, p, ks[j], b, b.failures[j]))
    && (forall i, j :: 0 <= i < j < |ks| ==> ks[i] < ks[j])
  }

  /** The batch is an older one, or gone. */
  ghost predicate KeepsBatch(v: PageState, w: PageState) {
    w.batch == v.batch || w.batch == None
  }

  /** The batch has one more abort, or holds that abort alone; it has the generation and the attempt of the request. */
  ghost predicate AddsAbort(v: PageState, w: PageState, t: Tracked, abort: Abort) {
    && w.batch.Some?
    && var b := w.batch.value;
       && b.generation == t.generation && b.commitGeneration == t.attemptGeneration
       && (b.failures == [abort]
           || (v.batch.Some? && b.failures == v.batch.value.failures + [abort]
               && v.batch.value.generation == b.generation && v.batch.value.commitGeneration == b.commitGeneration))
  }

  lemma RequestsKeepBatch(v: PageState, r: Request, mainNavigation: bool, t: Tracked)
    ensures KeepsBatch(v, RequestStarted(v, r, mainNavigation).page) && KeepsBatch(v, RequestFinished(v, t).page)
  {
  }

  lemma LifecycleKeepsBatch(v: PageState)
    ensures KeepsBatch(v, PageClosing(v).page) && KeepsBatch(v, NavigationBegun(v).page)
    ensures KeepsBatch(v, NavigationCommitted(v).page) && KeepsBatch(v, NavigationFailed(v).page)
  {
  }

  lemma AbortBatch(s: State, e: Event, v: PageState)
    requires e.AbortOf?
    ensures Kind(s, e) != Batched ==> KeepsBatch(v, AbortEffect(s, e, v).page)
    ensures Kind(s, e) == Batched ==>
              e.request in s.requests && AddsAbort(v, AbortEffect(s, e, v).page, s.requests[e.request], Abort(e.url, "net::ERR_ABORTED"))
  {
  }

  lemma EffectBatch(s: State, e: Event, v: PageState)
    requires Touches(s, e).Some? && !e.AbortOf?
    ensures KeepsBatch(v, EffectOn(s, e, v).page)
  {
    match e
    case Start(_, r, _, _) => RequestsKeepBatch(v, r, MainNavigation(s, e), Tracked(e.page, 0, false, None, false));
    case Finish(r) => RequestsKeepBatch(v, r, false, s.requests[r]);
    case _ => LifecycleKeepsBatch(v);
  }

  /** One event leaves a batch as it is, drops it, or adds its own abort to it or to a new one. */
  lemma BatchStep(s: State, e: Event, p: Page)
    ensures !Batches(s, e, p) ==> KeepsBatch(s.pages[p], Step(s, e).pages[p])
    ensures Batches(s, e, p) ==>
              && e.request in s.requests
              && AddsAbort(s.pages[p], Step(s, e).pages[p], s.requests[e.request], Abort(e.url, "net::ERR_ABORTED"))
  {
    if Touches(s, e).Some? {
      StepMoves(s, e);
      var q := Touches(s, e).value;
      if e.AbortOf? { AbortBatch(s, e, s.pages[q]); } else { EffectBatch(s, e, s.pages[q]); }
    }
  }

  lemma BatchedBefore(o: Option<string>, es: seq<Event>, p: Page, k: int, b: Batch, abort: Abort)
    requires es != [] && BatchedAt(o, Init(es), p, k, b, abort)
    ensures BatchedAt(o, es, p, k, b, abort)
  {
    SameBefore(o, es, k);
  }

  lemma HeldBefore(o: Option<string>, es: seq<Event>, p: Page, was: Batch, b: Batch, ks: seq<int>)
    requires es != [] && HoldsAborts(o, Init(es), p, was, ks)
    requires was.generation == b.generation && was.commitGeneration == b.commitGeneration && was.failures == b.failures
    ensures HoldsAborts(o, es, p, b, ks)
  {
    forall j | 0 <= j < |ks| ensures BatchedAt(o, es, p, ks[j], b, b.failures[j]) {
      assert BatchedAt(o, Init(es), p, ks[j], was, was.failures[j]);
      assert BatchedAt(o, Init(es), p, ks[j], b, b.failures[j]);
      BatchedBefore(o, es, p, ks[j], b, b.failures[j]);
    }
  }

  lemma BatchedLast(o: Option<string>, es: seq<Event>, p: Page, b: Batch)
    requires es != [] && Batches(Run(o, Init(es)), Last(es), p) && Last(es).request in Run(o, Init(es)).requests
    requires var t := Run(o, Init(es)).requests[Last(es).request];
             b.generation == t.generation && b.commitGeneration == t.attemptGeneration
    ensures BatchedAt(o, es, p, |es| - 1, b, Abort(Last(es).url, "net::ERR_ABORTED"))
  {
    AtInit(o, es, |es| - 1);
    assert Find(At(o, es, |es| - 1).requests, Last(es).request) == Some(Run(o, Init(es)).requests[Last(es).request]);
  }

  lemma OneMoreHeld(o: Option<string>, es: seq<Event>, p: Page, was: Batch, b: Batch, ks: seq<int>)
    requires es != [] && HoldsAborts(o, es, p, was, ks) && (forall j :: 0 <= j < |ks| ==> ks[j] < |es| - 1)
    requires was.generation == b.generation && was.commitGeneration == b.commitGeneration && |b.failures| == |was.failures| + 1
    requires was.failures == b.failures[..|was.failures|]
    requires BatchedAt(o, es, p, |es| - 1, b, b.failures[|was.failures|])
    ensures HoldsAborts(o, es, p, b, ks + [|es| - 1])
  {
    var all := ks + [|es| - 1];
    forall j | 0 <= j < |all| ensures BatchedAt(o, es, p, all[j], b, b.failures[j]) {
      if j < |ks| { assert BatchedAt(o, es, p, ks[j], was, was.failures[j]); }
    }
  }

  /** A pending batch holds the aborts of requests that all have its generation and its attempt. */
  lemma {:induction false} BatchHolds(o: Option<string>, es: seq<Event>, p: Page) returns (ks: seq<int>)
    requires Run(o, es).pages[p].batch.Some?
    ensures HoldsAborts(o, es, p, Run(o, es).pages[p].batch.value, ks)
  {
    var s, e, b := Run(o, Init(es)), Last(es), Run(o, es).pages[p].batch.value;
    BatchStep(s, e, p);
    if Batches(s, e, p) { BatchedLast(o, es, p, b); }
    if Batches(s, e, p) && b.failures == [Abort(e.url, "net::ERR_ABORTED")] {
      ks := [|es| - 1];
    } else {
      ks := BatchHolds(o, Init(es), p);
      var was := s.pages[p].batch.value;
      HeldBefore(o, es, p, was, b.(failures := was.failures), ks);
      if Batches(s, e, p) {
        OneMoreHeld(o, es, p, b.(failures := was.failures), b, ks);
        ks := ks + [|es| - 1];
      }
    }
  }

  /** The request whose abort event `k` batched was started on the page while an attempt of it was under way. */
  ghost predicate StartedInAttempt(o: Option<string>, es: seq<Event>, p: Page, k: int)
    requires 0 <= k < |es| && es[k].AbortOf?
  {
    exists i: nat, t :: IsRecord(o, es[..k], es[k].request, t, i) && t.page == p && At(o, es[..k], i + 1).pages[p].attempt.Some?
  }

  lemma AttemptOfAbort(o: Option<string>, es: seq<Event>, p: Page, k: int, b: Batch, abort: Abort)
    requires BatchedAt(o, es, p, k, b, abort)
    ensures StartedInAttempt(o, es, p, k) <==> b.commitGeneration.Some?
  {
    var t :| Find(At(o, es, k).requests, es[k].request) == Some(t) && t.generation == b.generation && t.attemptGeneration == b.commitGeneration;
    RecordIff(o, es[..k], es[k].request, t);
    var i: nat :| IsRecord(o, es[..k], es[k].request, t, i);
    if StartedInAttempt(o, es, p, k) {
      var j: nat, u :| IsRecord(o, es[..k], es[k].request, u, j) && u.page == p && At(o, es[..k], j + 1).pages[p].attempt.Some?;
      OneRecord(o, es[..k], es[k].request, t, i, u, j);
    }
  }

  /**
   A commit explains the aborts of a batch if and only if it is the first one of the page's present generation and
   the requests aborted, any or all of them, were started while an attempt of the page was under way.
   */
  lemma CommitExplainsStarted(o: Option<string>, es: seq<Event>, p: Page, ks: seq<int>, j: nat)
    requires Run(o, es).pages[p].batch.Some? && HoldsAborts(o, es, p, Run(o, es).pages[p].batch.value, ks) && j < |ks|
    ensures FateOf(Run(o, es), Commit(p), p) == Explained
       <==> FirstCommit(o, es, p, Run(o, es).pages[p].generation) && StartedInAttempt(o, es, p, ks[j])
  {
    var b := Run(o, es).pages[p].batch.value;
    CommitExplainsIff(o, es, p);
    AttemptOfAbort(o, es, p, ks[j], b, b.failures[j]);
    RunInv(o, es);
    assert PageOk(Run(o, es).pages[p], Run(o, es).contextClosing);
  }

  // ---- the order of the pending batches ----

  /** `e` begins a new batch of `p`. */
  ghost predicate Begins(s: State, e: Event, p: Page) {
    Batches(s, e, p) && (s.pages[p].batch.None? || FateOf(s, e, p) != Stays)
  }

  /** The event that began the present batch of `p`. */
  ghost function BegunAt(o: Option<string>, es: seq<Event>, p: Page): nat {
    if es == [] then 0 else if Begins(Run(o, Init(es)), Last(es), p) then |es| - 1 else BegunAt(o, Init(es), p)
  }

  ghost predicate Ascending(xs: seq<Page>, f: Page -> nat) {
    forall i, j :: 0 <= i < j < |xs| ==> f(xs[i]) < f(xs[j])
  }

  lemma {:induction false} WithoutAscends(xs: seq<Page>, p: Page, f: Page -> nat)
    requires Ascending(xs, f)
    ensures Ascending(Without(xs, p), f)
  {
    if xs != [] {
      var rest := xs[1..];
      forall i, j | 0 <= i < j < |rest| ensures f(rest[i]) < f(rest[j]) { assert rest[i] == xs[i + 1] && rest[j] == xs[j + 1]; }
      WithoutAscends(rest, p, f);
      WithoutElements(rest, p);
      forall y | y in rest ensures f(xs[0]) < f(y) {
        var k :| 0 <= k < |rest| && rest[k] == y;
        assert xs[k + 1] == y;
      }
      var kept := Without(rest, p);
      assert forall k :: 0 <= k < |kept| ==> kept[k] in rest;
    }
  }

  /** The touched page enters at the end when its batch begins, and the others keep their places. */
  lemma OrderStep(s: State, e: Event)
    requires Inv(s)
    ensures var order := Step(s, e).order;
            if e.CloseContext? || e.Take? then order == []
            else match Touches(s, e)
              case None => order == s.order
              case Some(p) =>
                && (Begins(s, e, p) ==> order == Without(s.order, p) + [p])
                && (!Begins(s, e, p) ==> order == s.order || order == Without(s.order, p))
  {
    if Touches(s, e).Some? {
      var p := Touches(s, e).value;
      StepMoves(s, e);
      assert PageOk(s.pages[p], s.contextClosing);
      EffectOrders(s, e, p);
      if p !in s.order { WithoutAbsent(s.order, p); }
    }
  }

  lemma EffectOrders(s: State, e: Event, p: Page)
    requires Inv(s) && Touches(s, e) == Some(p)
    ensures var f := EffectOn(s, e, s.pages[p]);
            && (f.joined <==> Begins(s, e, p)) && (f.joined && s.pages[p].batch.Some? ==> f.left)
  {
    assert PageOk(s.pages[p], s.contextClosing);
    if e.AbortOf? {
      if e.request in s.requests { assert TrackedOk(s, s.requests[e.request]); }
      AbortOrders(s, e, p);
    }
  }

  lemma AbortOrders(s: State, e: Event, p: Page)
    requires e.AbortOf? && e.page == p && PageOk(s.pages[p], s.contextClosing)
    requires e.request in s.requests ==> TrackedOk(s, s.requests[e.request])
    ensures var f := AbortEffect(s, e, s.pages[p]);
            && (f.joined <==> Begins(s, e, p)) && (f.joined && s.pages[p].batch.Some? ==> f.left)
  {
  }

  /** The pages of `kept` are old ones, in an order that the new event does not change. */
  lemma KeptOrder(xs: seq<Page>, f: Page -> nat, g: Page -> nat)
    requires Ascending(xs, f) && forall q :: q in xs ==> g(q) == f(q)
    ensures Ascending(xs, g)
  {
    forall i, j | 0 <= i < j < |xs| ensures g(xs[i]) < g(xs[j]) { assert xs[i] in xs && xs[j] in xs; }
  }

  lemma LastAscends(xs: seq<Page>, p: Page, g: Page -> nat)
    requires Ascending(xs, g) && forall q :: q in xs ==> g(q) < g(p)
    ensures Ascending(xs + [p], g)
  {
    forall i | 0 <= i < |xs| ensures g(xs[i]) < g(p) { assert xs[i] in xs; }
  }

  ghost function Beginnings(o: Option<string>, es: seq<Event>): Page -> nat {
    (p: Page) => BegunAt(o, es, p)
  }

  lemma TouchedOrder(o: Option<string>, es: seq<Event>, p: Page)
    requires es != [] && Touches(Run(o, Init(es)), Last(es)) == Some(p)
    requires Ascending(Run(o, Init(es)).order, Beginnings(o, Init(es)))
    requires forall q :: q in Run(o, Init(es)).order ==> BegunAt(o, Init(es), q) < |es| - 1
    ensures Ascending(Run(o, es).order, Beginnings(o, es))
    ensures forall q :: q in Run(o, es).order ==> BegunAt(o, es, q) < |es|
  {
    var s, e := Run(o, Init(es)), Last(es);
    RunInv(o, Init(es));
    OrderStep(s, e);
    WithoutAscends(s.order, p, Beginnings(o, Init(es)));
    WithoutElements(s.order, p);
    var kept := if Begins(s, e, p) then Without(s.order, p) else Run(o, es).order;
    KeptOrder(kept, Beginnings(o, Init(es)), Beginnings(o, es));
    if Begins(s, e, p) { LastAscends(kept, p, Beginnings(o, es)); }
  }

  /** Pending batches stand in the order in which they began: this is the order in which they are reported. */
  lemma {:induction false} OrderIsBegun(o: Option<string>, es: seq<Event>)
    ensures Ascending(Run(o, es).order, Beginnings(o, es))
    ensures forall p :: p in Run(o, es).order ==> BegunAt(o, es, p) < |es|
  {
    if es != [] {
      var s, e := Run(o, Init(es)), Last(es);
      OrderIsBegun(o, Init(es));
      RunInv(o, Init(es));
      OrderStep(s, e);
      if Touches(s, e).Some? {
        TouchedOrder(o, es, Touches(s, e).value);
      } else {
        KeptOrder(Run(o, es).order, Beginnings(o, Init(es)), Beginnings(o, es));
      }
    }
  }
}
