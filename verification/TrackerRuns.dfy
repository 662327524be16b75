/**
 Whole runs of the cancellation tracker: every abort is settled once.
 */
module TrackerRuns {
  import opened Tracker
  import opened TrackerTraces
  import opened Wrappers

  // The k-th abort batched on a page leaves the pending dictionary once, in order, and is
  // then reported or explained; the lemmas say what must have happened for it to be explained.

  ghost function Init<T>(xs: seq<T>): seq<T>
    requires xs != []
  {
    xs[..|xs| - 1]
  }

  ghost function Last<T>(xs: seq<T>): T
    requires xs != []
  {
    xs[|xs| - 1]
  }

  /** The state before event `i` of the run. */
  ghost function At(o: Option<string>, es: seq<Event>, i: nat): State
    requires i <= |es|
  {
    Run(o, es[..i])
  }

  lemma AtInit(o: Option<string>, es: seq<Event>, i: nat)
    requires es != [] && i < |es|
    ensures At(o, es, i) == At(o, Init(es), i) && At(o, es, |es|) == Run(o, es)
    ensures At(o, Init(es), |es| - 1) == Run(o, Init(es))
  {
    assert es[..i] == Init(es)[..i];
    assert es[..|es|] == es && Init(es)[..|es| - 1] == Init(es);
  }

  // ---- accounting ----

  ghost function BatchedOn(o: Option<string>, es: seq<Event>, p: Page): seq<Abort> {
    if es == [] then [] else BatchedOn(o, Init(es), p) + Joins(Run(o, Init(es)), Last(es), p)
  }

  ghost function LeftOn(o: Option<string>, es: seq<Event>, p: Page): seq<Abort> {
    if es == [] then [] else LeftOn(o, Init(es), p) + Leaves(Run(o, Init(es)), Last(es), p)
  }

  /** The aborts of all batches whose fate was to be reported, in the order in which they were. */
  ghost function ReportedIn(o: Option<string>, es: seq<Event>): seq<Abort> {
    if es == [] then []
    else
      var s := Run(o, Init(es));
      ReportedIn(o, Init(es)) + ReportsOf(s, Last(es), s.order)
  }

  ghost function TakenIn(o: Option<string>, es: seq<Event>): seq<Abort> {
    if es == [] then [] else TakenIn(o, Init(es)) + TakenAt(Run(o, Init(es)), Last(es))
  }

  lemma Carry<T>(total: seq<T>, gone: seq<T>, held: seq<T>, enter: seq<T>, leave: seq<T>, held': seq<T>)
    requires total == gone + held && leave + held' == held + enter
    ensures total + enter == gone + leave + held'
  {
    assert gone + leave + held' == gone + (leave + held');
  }

  /**
   On every page the aborts batched so far are, in order, those that left the pending
   dictionary followed by those still in it: none is lost, duplicated or reordered.
   */
  lemma {:induction false} EveryAbortLeavesOnce(o: Option<string>, es: seq<Event>, p: Page)
    ensures BatchedOn(o, es, p) == LeftOn(o, es, p) + Held(Run(o, es), p)
  {
    if es != [] {
      var s, e := Run(o, Init(es)), Last(es);
      EveryAbortLeavesOnce(o, Init(es), p);
      RunInv(o, Init(es));
      StepFollowsFate(s, e, p);
      Carry(BatchedOn(o, Init(es), p), LeftOn(o, Init(es), p), Held(s, p),
            Joins(s, e, p), Leaves(s, e, p), Held(Step(s, e), p));
    }
  }

  /** What was taken and what waits to be taken are exactly the reported batches, each once and in order. */
  lemma {:induction false} EveryReportIsTakenOnce(o: Option<string>, es: seq<Event>)
    ensures TakenIn(o, es) + Run(o, es).unexplained == ReportedIn(o, es)
  {
    if es != [] {
      var s, e := Run(o, Init(es)), Last(es);
      EveryReportIsTakenOnce(o, Init(es));
      RunInv(o, Init(es));
      StepReports(s, e);
      Carry(ReportedIn(o, Init(es)), TakenIn(o, Init(es)), s.unexplained,
            ReportsOf(s, e, s.order), TakenAt(s, e), Step(s, e).unexplained);
    }
  }

  /** Taking the unexplained aborts settles every abort batched before. */
  lemma TakingSettlesAll(o: Option<string>, es: seq<Event>, p: Page)
    ensures BatchedOn(o, es, p) == LeftOn(o, es + [Take], p)
    ensures TakenIn(o, es + [Take]) == ReportedIn(o, es + [Take])
  {
    EveryAbortLeavesOnce(o, es + [Take], p);
    EveryReportIsTakenOnce(o, es + [Take]);
    TakeLeavesNothing(o, es, p);
    BatchedBeforeTake(o, es, p);
  }

  lemma TakeLeavesNothing(o: Option<string>, es: seq<Event>, p: Page)
    ensures Held(Run(o, es + [Take]), p) == [] && Run(o, es + [Take]).unexplained == []
  {
    assert Init(es + [Take]) == es && Last(es + [Take]) == Take;
  }

  lemma BatchedBeforeTake(o: Option<string>, es: seq<Event>, p: Page)
    ensures BatchedOn(o, es + [Take], p) == BatchedOn(o, es, p)
  {
    assert Init(es + [Take]) == es && Last(es + [Take]) == Take;
    assert BatchedOn(o, es + [Take], p) == BatchedOn(o, es, p) + [];
  }

  // ---- what explains a batch ----

  /** Event `i` batched an abort of `p` and no later event touched the page. */
  ghost predicate JustBatched(o: Option<string>, es: seq<Event>, p: Page, i: nat) {
    && i < |es|
    && Batches(At(o, es, i), es[i], p)
    && forall k: nat :: i < k < |es| ==> Passes(o, es, p, k)
  }

  lemma SameBefore(o: Option<string>, es: seq<Event>, k: nat)
    requires es != [] && k < |es| - 1
    ensures At(o, es, k) == At(o, Init(es), k) && es[k] == Init(es)[k]
  {
    AtInit(o, es, k);
  }

  /** Event `k` does not touch the page. */
  ghost predicate Passes(o: Option<string>, es: seq<Event>, p: Page, k: nat)
    requires k < |es|
  {
    Touches(At(o, es, k), es[k]) != Some(p)
  }

  lemma SamePass(o: Option<string>, es: seq<Event>, p: Page, k: nat)
    requires es != [] && k < |es| - 1
    ensures Passes(o, es, p, k) <==> Passes(o, Init(es), p, k)
    ensures Batches(At(o, es, k), es[k], p) <==> Batches(At(o, Init(es), k), Init(es)[k], p)
  {
    SameBefore(o, es, k);
  }

  lemma LastPass(o: Option<string>, es: seq<Event>, p: Page)
    requires es != []
    ensures Passes(o, es, p, |es| - 1) <==> Touches(Run(o, Init(es)), Last(es)) != Some(p)
  {
    AtInit(o, es, |es| - 1);
  }

  lemma JustBatchedStays(o: Option<string>, es: seq<Event>, p: Page, i: nat)
    requires es != [] && i < |es| - 1
    requires JustBatched(o, Init(es), p, i) && Touches(Run(o, Init(es)), Last(es)) != Some(p)
    ensures JustBatched(o, es, p, i)
  {
    SamePass(o, es, p, i);
    forall k: nat | i < k < |es| ensures Passes(o, es, p, k) {
      if k < |es| - 1 { SamePass(o, es, p, k); } else { LastPass(o, es, p); }
    }
  }

  lemma JustBatchedBefore(o: Option<string>, es: seq<Event>, p: Page, i: nat)
    requires es != [] && i < |es| - 1 && JustBatched(o, es, p, i)
    ensures JustBatched(o, Init(es), p, i) && Touches(Run(o, Init(es)), Last(es)) != Some(p)
  {
    SamePass(o, es, p, i);
    LastPass(o, es, p);
    forall k: nat | i < k < |Init(es)| ensures Passes(o, Init(es), p, k) { SamePass(o, es, p, k); }
  }

  /** An event that touches a page moves its counter on, and stamps the batch exactly when it batches an abort. */
  lemma StepStamps(s: State, e: Event, p: Page)
    requires Inv(s)
    ensures var v, w := s.pages[p], Step(s, e).pages[p];
            && (Touches(s, e) == Some(p) ==>
                  w.event == v.event + 1 && (w.batch.Some? ==> (w.batch.value.lastEvent == w.event <==> Batches(s, e, p))))
            && (Touches(s, e) != Some(p) ==> w.generation == v.generation && w.event == v.event && (w.batch == v.batch || w.batch.None?))
            && (Batches(s, e, p) ==> w.batch.Some? && w.generation == v.generation)
  {
    assert PageOk(s.pages[p], s.contextClosing);
    if Touches(s, e).Some? {
      StepMoves(s, e);
      if Touches(s, e) == Some(p) { EffectStamps(s, e, s.pages[p]); }
    }
  }

  /** The effect moves the counter on; a batch that stays has an older stamp. */
  ghost predicate MovesOn(v: PageState, f: Effect) {
    f.page.event == v.event + 1 && (f.page.batch.Some? ==> f.page.batch.value.lastEvent < f.page.event)
  }

  lemma RequestsMoveOn(v: PageState, r: Request, mainNavigation: bool, t: Tracked, contextClosing: bool)
    requires PageOk(v, contextClosing)
    ensures MovesOn(v, RequestStarted(v, r, mainNavigation)) && MovesOn(v, RequestFinished(v, t))
  {
  }

  lemma LifecycleMovesOn(v: PageState, contextClosing: bool)
    requires PageOk(v, contextClosing)
    ensures MovesOn(v, PageClosing(v)) && MovesOn(v, NavigationBegun(v))
    ensures MovesOn(v, NavigationCommitted(v)) && MovesOn(v, NavigationFailed(v))
  {
  }

  lemma AbortStamps(s: State, e: Event, v: PageState)
    requires e.AbortOf? && v == s.pages[e.page] && PageOk(v, s.contextClosing)
    ensures var f := AbortEffect(s, e, v);
            if Kind(s, e) == Batched then f.page.event == v.event + 1 && f.page.batch.Some? && f.page.batch.value.lastEvent == f.page.event
            else MovesOn(v, f)
    ensures AbortEffect(s, e, v).page.generation == v.generation
  {
  }

  lemma EffectStamps(s: State, e: Event, v: PageState)
    requires Touches(s, e).Some? && v == s.pages[Touches(s, e).value] && PageOk(v, s.contextClosing)
    ensures var f := EffectOn(s, e, v);
            && f.page.event == v.event + 1
            && (f.page.batch.Some? ==> (f.page.batch.value.lastEvent == f.page.event <==> e.AbortOf? && Kind(s, e) == Batched))
            && (e.AbortOf? ==> f.page.generation == v.generation && (Kind(s, e) == Batched ==> f.page.batch.Some?))
  {
    if e.AbortOf? { AbortStamps(s, e, v); } else { OtherMovesOn(s, e, v); }
  }

  lemma OtherMovesOn(s: State, e: Event, v: PageState)
    requires Touches(s, e).Some? && !e.AbortOf? && PageOk(v, s.contextClosing)
    ensures MovesOn(v, EffectOn(s, e, v))
  {
    match e
    case Start(_, r, _, _) => RequestsMoveOn(v, r, MainNavigation(s, e), Tracked(e.page, 0, false, None, false), s.contextClosing);
    case Finish(r) => RequestsMoveOn(v, r, false, s.requests[r], s.contextClosing);
    case _ => LifecycleMovesOn(v, s.contextClosing);
  }

  /** The counter test of the tracker means: the page's last event batched an abort, in the present generation. */
  lemma {:induction false} StampIsLastTouch(o: Option<string>, es: seq<Event>, p: Page) returns (i: nat)
    requires Run(o, es).pages[p].batch.Some?
    requires Run(o, es).pages[p].batch.value.lastEvent == Run(o, es).pages[p].event
    ensures JustBatched(o, es, p, i)
    ensures At(o, es, i).pages[p].generation == Run(o, es).pages[p].generation
  {
    var s, e := Run(o, Init(es)), Last(es);
    RunInv(o, Init(es));
    StepStamps(s, e, p);
    AtInit(o, es, |es| - 1);
    if Touches(s, e) == Some(p) {
      i := |es| - 1;
    } else {
      i := StampIsLastTouch(o, Init(es), p);
      JustBatchedStays(o, es, p, i);
      AtInit(o, es, i);
    }
  }

  /** The batch of the page carries the present event. */
  ghost predicate IsStampedNow(v: PageState) {
    v.batch.Some? && v.batch.value.lastEvent == v.event
  }

  lemma StampArises(o: Option<string>, es: seq<Event>, p: Page)
    requires es != [] && Batches(Run(o, Init(es)), Last(es), p)
    ensures IsStampedNow(Run(o, es).pages[p])
  {
    RunInv(o, Init(es));
    StepStamps(Run(o, Init(es)), Last(es), p);
  }

  lemma StampSurvives(o: Option<string>, es: seq<Event>, p: Page)
    requires es != [] && Touches(Run(o, Init(es)), Last(es)) != Some(p) && Run(o, es).pages[p].batch.Some?
    ensures Run(o, Init(es)).pages[p].batch.Some?
    ensures IsStampedNow(Run(o, Init(es)).pages[p]) ==> IsStampedNow(Run(o, es).pages[p])
  {
    RunInv(o, Init(es));
    StepStamps(Run(o, Init(es)), Last(es), p);
  }

  lemma {:induction false} LastTouchIsStamp(o: Option<string>, es: seq<Event>, p: Page, i: nat)
    requires JustBatched(o, es, p, i) && Run(o, es).pages[p].batch.Some?
    ensures IsStampedNow(Run(o, es).pages[p])
  {
    if i < |es| - 1 {
      JustBatchedBefore(o, es, p, i);
      StampSurvives(o, es, p);
      LastTouchIsStamp(o, Init(es), p, i);
    } else {
      AtInit(o, es, |es| - 1);
      StampArises(o, es, p);
    }
  }

  /**
   A request event explains a batch if and only if it starts a new main navigation of
   the page and is the page's very next event after the batch's last abort. That
   abort fell in the generation the navigation ends.
   */
  lemma NavigationExplainsIff(o: Option<string>, es: seq<Event>, e: Event, p: Page)
    requires Run(o, es).pages[p].batch.Some? && e.Start?
    ensures FateOf(Run(o, es), e, p) == Explained
       <==> && e.page == p && MainNavigation(Run(o, es), e) && !AwaitsMainRequest(Run(o, es).pages[p])
            && exists i: nat :: JustBatched(o, es, p, i)
    ensures FateOf(Run(o, es), e, p) == Explained ==>
              && Step(Run(o, es), e).pages[p].generation == Run(o, es).pages[p].generation + 1
              && exists i: nat :: JustBatched(o, es, p, i)
                                  && At(o, es, i).pages[p].generation == Run(o, es).pages[p].generation
  {
    StartExplains(Run(o, es), e, p);
    StampIffLastTouch(o, es, p);
  }

  /** In the tracker's own terms: a new main navigation explains a batch stamped with the present event. */
  lemma StartExplains(s: State, e: Event, p: Page)
    requires s.pages[p].batch.Some? && e.Start?
    ensures FateOf(s, e, p) == Explained
       <==> && e.page == p && MainNavigation(s, e) && !AwaitsMainRequest(s.pages[p])
            && s.pages[p].batch.value.lastEvent == s.pages[p].event
    ensures FateOf(s, e, p) == Explained ==> Step(s, e).pages[p].generation == s.pages[p].generation + 1
  {
  }

  lemma StampIffLastTouch(o: Option<string>, es: seq<Event>, p: Page)
    requires Run(o, es).pages[p].batch.Some?
    ensures Run(o, es).pages[p].batch.value.lastEvent == Run(o, es).pages[p].event <==> exists i: nat :: JustBatched(o, es, p, i)
    ensures Run(o, es).pages[p].batch.value.lastEvent == Run(o, es).pages[p].event ==>
              exists i: nat :: JustBatched(o, es, p, i) && At(o, es, i).pages[p].generation == Run(o, es).pages[p].generation
  {
    if Run(o, es).pages[p].batch.value.lastEvent == Run(o, es).pages[p].event {
      var i := StampIsLastTouch(o, es, p);
    }
    if i: nat :| JustBatched(o, es, p, i) {
      LastTouchIsStamp(o, es, p, i);
    }
  }

  /** Every commit so far fell in a generation no later than the recorded one, which is one of them. */
  ghost predicate CommitsUpTo(o: Option<string>, es: seq<Event>, p: Page, c: Option<nat>) {
    && (forall k :: 0 <= k < |es| && es[k] == Commit(p) ==> c.Some? && At(o, es, k).pages[p].generation <= c.value)
    && (c.Some? ==> exists k :: 0 <= k < |es| && es[k] == Commit(p) && At(o, es, k).pages[p].generation == c.value)
  }

  /** No commit of `p` so far fell in generation `g` or a later one. */
  ghost predicate FirstCommit(o: Option<string>, es: seq<Event>, p: Page, g: nat) {
    forall k :: 0 <= k < |es| && es[k] == Commit(p) ==> At(o, es, k).pages[p].generation < g
  }

  /** The effect neither commits nor closes. */
  ghost predicate KeepsCommit(v: PageState, f: Effect) {
    f.page.committed == v.committed && f.page.closing == v.closing
  }

  lemma RequestsKeepCommit(v: PageState, r: Request, mainNavigation: bool, t: Tracked)
    ensures KeepsCommit(v, RequestStarted(v, r, mainNavigation)) && KeepsCommit(v, RequestFinished(v, t))
  {
  }

  lemma AbortKeepsCommit(s: State, e: Event, v: PageState)
    requires e.AbortOf?
    ensures KeepsCommit(v, AbortEffect(s, e, v))
  {
  }

  lemma EffectCommits(s: State, e: Event, v: PageState)
    requires Touches(s, e).Some?
    ensures EffectOn(s, e, v).page.committed == if e.Commit? then Some(v.generation) else v.committed
    ensures EffectOn(s, e, v).page.closing == (v.closing || e.Close?)
  {
    match e
    case AbortOf(_, _, _, _) => AbortKeepsCommit(s, e, v);
    case Start(_, r, _, _) => RequestsKeepCommit(v, r, MainNavigation(s, e), Tracked(e.page, 0, false, None, false));
    case Finish(r) => RequestsKeepCommit(v, r, false, s.requests[r]);
    case _ =>
  }

  lemma StepCommits(s: State, e: Event, p: Page)
    ensures Step(s, e).pages[p].committed == if e == Commit(p) then Some(s.pages[p].generation) else s.pages[p].committed
    ensures Step(s, e).pages[p].closing == (s.pages[p].closing || e == Close(p))
    ensures Step(s, e).contextClosing == (s.contextClosing || e == CloseContext)
  {
    if Touches(s, e).Some? {
      StepMoves(s, e);
      EffectCommits(s, e, s.pages[Touches(s, e).value]);
    }
  }

  /** One event extends the record of commits as it extends the recorded one. */
  lemma CommitsStep(o: Option<string>, es: seq<Event>, p: Page, c: Option<nat>)
    requires es != [] && CommitsUpTo(o, Init(es), p, c)
    requires c.Some? ==> c.value <= Run(o, Init(es)).pages[p].generation
    ensures CommitsUpTo(o, es, p, if Last(es) == Commit(p) then Some(Run(o, Init(es)).pages[p].generation) else c)
  {
    var n := |es| - 1;
    AtInit(o, es, n);
    var d := if Last(es) == Commit(p) then Some(Run(o, Init(es)).pages[p].generation) else c;
    forall k: nat | k < |es| && es[k] == Commit(p) ensures d.Some? && At(o, es, k).pages[p].generation <= d.value {
      if k < n { SameBefore(o, es, k); }
    }
    if d.Some? {
      if Last(es) == Commit(p) {
        assert es[n] == Commit(p) && At(o, es, n).pages[p].generation == d.value;
      } else {
        var k :| 0 <= k < |Init(es)| && Init(es)[k] == Commit(p) && At(o, Init(es), k).pages[p].generation == c.value;
        SameBefore(o, es, k);
        assert es[k] == Commit(p) && At(o, es, k).pages[p].generation == d.value;
      }
    }
  }

  lemma {:induction false} CommittedIsLatest(o: Option<string>, es: seq<Event>, p: Page)
    ensures CommitsUpTo(o, es, p, Run(o, es).pages[p].committed)
  {
    if es != [] {
      var s := Run(o, Init(es));
      RunInv(o, Init(es));
      assert PageOk(s.pages[p], s.contextClosing);
      CommittedIsLatest(o, Init(es), p);
      StepCommits(s, Last(es), p);
      CommitsStep(o, es, p, s.pages[p].committed);
    }
  }

  /**
   A commit explains a batch if and only if it is the first commit of the page's
   present generation and the batch belongs to the attempt of that generation.
   */
  lemma CommitExplainsIff(o: Option<string>, es: seq<Event>, p: Page)
    requires Run(o, es).pages[p].batch.Some?
    ensures FateOf(Run(o, es), Commit(p), p) == Explained
       <==> && Run(o, es).pages[p].batch.value.commitGeneration == Some(Run(o, es).pages[p].generation)
            && FirstCommit(o, es, p, Run(o, es).pages[p].generation)
  {
    RunInv(o, es);
    var s := Run(o, es);
    assert PageOk(s.pages[p], s.contextClosing);
    CommittedIsLatest(o, es, p);
    CommitExplains(s, p);
    FirstCommitIff(o, es, p, s.pages[p].generation, s.pages[p].committed);
  }

  lemma CommitExplains(s: State, p: Page)
    requires s.pages[p].batch.Some? && PageOk(s.pages[p], s.contextClosing)
    ensures FateOf(s, Commit(p), p) == Explained
       <==> && s.pages[p].batch.value.commitGeneration == Some(s.pages[p].generation)
            && s.pages[p].committed != Some(s.pages[p].generation)
  {
  }

  lemma FirstCommitIff(o: Option<string>, es: seq<Event>, p: Page, g: nat, c: Option<nat>)
    requires CommitsUpTo(o, es, p, c) && (c.Some? ==> c.value <= g)
    ensures FirstCommit(o, es, p, g) <==> c != Some(g)
  {
  }

  /** No other event explains a batch. */
  lemma OnlyNavigationExplains(s: State, e: Event, p: Page)
    requires s.pages[p].batch.Some? && FateOf(s, e, p) == Explained
    ensures (e.Start? && e.page == p && MainNavigation(s, e)) || e == Commit(p)
  {
  }

  // ---- aborts accepted without being batched ----

  lemma {:induction false} ClosingWasAnnounced(o: Option<string>, es: seq<Event>, p: Page)
    ensures Run(o, es).contextClosing <==> CloseContext in es
    ensures Run(o, es).pages[p].closing <==> Close(p) in es
  {
    if es != [] {
      var s, e := Run(o, Init(es)), Last(es);
      ClosingWasAnnounced(o, Init(es), p);
      assert es == Init(es) + [e];
      StepCommits(s, e, p);
    }
  }

  /** A record is an older one, or the event's own. */
  lemma RecordStep(s: State, e: Event, r: Request)
    requires Inv(s) && r in Step(s, e).requests
    ensures if e.Start? && e.request == r
            then e.page == Step(s, e).requests[r].page && Step(s, e).pages[e.page].generation == Step(s, e).requests[r].generation
            else r in s.requests && s.requests[r] == Step(s, e).requests[r]
  {
    if e.Start? { assert PageOk(s.pages[e.page], s.contextClosing); }
    StepRequests(s, e, r);
  }

  /** Event `i` started the request whose record is `t`. */
  ghost predicate StartedAt(o: Option<string>, es: seq<Event>, r: Request, t: Tracked, i: nat) {
    && i < |es| && es[i].Start? && es[i].request == r && es[i].page == t.page
    && At(o, es, i + 1).pages[t.page].generation == t.generation
  }

  lemma RecordOfRun(o: Option<string>, es: seq<Event>, r: Request, t: Tracked)
    requires es != [] && Find(Run(o, es).requests, r) == Some(t)
    ensures StartedAt(o, es, r, t, |es| - 1) || Find(Run(o, Init(es)).requests, r) == Some(t)
  {
    RunInv(o, Init(es));
    RecordStep(Run(o, Init(es)), Last(es), r);
    AtInit(o, es, |es| - 1);
  }

  /** A tracked request was started by some event, in the generation its record names. */
  lemma {:induction false} RecordHasStart(o: Option<string>, es: seq<Event>, r: Request, t: Tracked) returns (i: nat)
    requires Find(Run(o, es).requests, r) == Some(t)
    ensures StartedAt(o, es, r, t, i)
  {
    RecordOfRun(o, es, r, t);
    if StartedAt(o, es, r, t, |es| - 1) {
      i := |es| - 1;
    } else {
      i := RecordHasStart(o, Init(es), r, t);
      StartedBeforeToo(o, es, i);
    }
  }

  lemma StartedBeforeToo(o: Option<string>, es: seq<Event>, i: nat)
    requires es != [] && i < |Init(es)|
    ensures es[i] == Init(es)[i] && At(o, es, i + 1) == At(o, Init(es), i + 1)
  {
    AtInit(o, es, i + 1);
  }

  /**
   The tracker accepts an abort only if the page or the context began to close before,
   or a navigation of the page began after the request started, or the abort is
   batched and so accounted for above.
   */
  lemma AcceptedAbortHasCause(o: Option<string>, es: seq<Event>, e: Event)
    requires e.AbortOf? && Kind(Run(o, es), e) != Foreign
    ensures || CloseContext in es || Close(e.page) in es
            || Batches(Run(o, es), e, e.page)
            || exists i: nat :: && i < |es| && es[i].Start? && es[i].request == e.request && es[i].page == e.page
                                && At(o, es, i + 1).pages[e.page].generation < Run(o, es).pages[e.page].generation
  {
    ClosingWasAnnounced(o, es, e.page);
    if Kind(Run(o, es), e) == Superseded {
      var i := RecordHasStart(o, es, e.request, Run(o, es).requests[e.request]);
    }
  }
}
