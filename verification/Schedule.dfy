/**
 The scheduled regression selector: whether the next scheduled run may skip the
 full regression, decided from the bounded history of earlier runs.
 */
module Schedule {
  import opened Wrappers

  // `Decide` is the decision as a function; the methods compute it with the loops of
  // the program. ScheduleLoop.dfy puts the decision in closed loop with the history
  // its own runs leave.

  const WORKFLOW_PATH := ".github/workflows/" + "scheduled-full-" + "regression.yml"
  const MARKER_NAME := "full-regression"
  const HISTORY_WINDOW: nat := 100

  // The conclusions GitHub reports; `Unrecognized` is any other value.
  datatype Conclusion =
    | ActionRequired | Cancelled | Failure | Neutral | Skipped | Stale
    | StartupFailure | Success | TimedOut | Unrecognized

  datatype RawRun = RawRun(id: int, event: string, branch: string, path: string, status: string,
                           conclusion: Conclusion, sha: string, attempt: int)

  datatype Run = Run(id: int, conclusion: Conclusion, sha: string, attempt: int)

  datatype Job = Job(name: string, runId: int, status: string, conclusion: Conclusion)

  datatype Error = HistoryUnavailable | InvalidDecision

  datatype Reason =
    | AlreadySuccessfullyCovered | FirstScheduledRun | NoHistory | NoCoverageAnchor
    | ShaChanged | StateChanged | UnchangedState | RetryAfter(conclusion: Conclusion)

  datatype Decision = Decision(runFull: bool, reason: Reason, currentSha: Option<string>, currentState: Option<string>,
                               previous: Option<Run>, anchor: Option<Run>, anchorState: Option<string>, depth: nat)

  predicate IsHexDigest(s: string, n: nat) {
    |s| == n && forall c :: c in s ==> '0' <= c <= '9' || 'a' <= c <= 'f'
  }

  predicate ShaOk(s: string) {
    IsHexDigest(s, 40)
  }

  predicate StateOk(s: string) {
    IsHexDigest(s, 64)
  }

  // ---- the relevant runs ----

  /** The part of a workflow path before its revision. */
  function BeforeAt(path: string): string {
    if path == [] || path[0] == '@' then [] else [path[0]] + BeforeAt(path[1..])
  }

  predicate Concerns(r: RawRun, current: int) {
    r.id != current && r.event == "schedule" && r.branch == "main" && BeforeAt(r.path) == WORKFLOW_PATH
  }

  predicate WellFormed(r: RawRun) {
    r.id > 0 && r.status == "completed" && r.conclusion != Unrecognized && ShaOk(r.sha) && r.attempt > 0
  }

  function Parsed(r: RawRun): Run {
    Run(r.id, r.conclusion, r.sha, r.attempt)
  }

  function Relevant(runs: seq<RawRun>, current: int, seen: set<int>): Result<seq<Run>, Error> {
    if runs == [] then Ok([])
    else if !Concerns(runs[0], current) then Relevant(runs[1..], current, seen)
    else if !WellFormed(runs[0]) || runs[0].id in seen then Err(HistoryUnavailable)
    else match Relevant(runs[1..], current, seen + {runs[0].id})
      case Err(e) => Err(e)
      case Ok(rest) => Ok([Parsed(runs[0])] + rest)
  }

  function Window<T>(xs: seq<T>): seq<T> {
    if |xs| > HISTORY_WINDOW then xs[..HISTORY_WINDOW] else xs
  }

  function AddTo(rs: seq<Run>, rest: Result<seq<Run>, Error>): Result<seq<Run>, Error> {
    match rest case Err(e) => Err(e) case Ok(more) => Ok(rs + more)
  }

  lemma AddToSteps(rs: seq<Run>, r: Run, rest: Result<seq<Run>, Error>)
    ensures AddTo([], rest) == rest
    ensures AddTo(rs + [r], rest) == AddTo(rs, match rest case Err(e) => Err(e) case Ok(more) => Ok([r] + more))
  {
    if rest.Ok? {
      assert [] + rest.value == rest.value;
      assert (rs + [r]) + rest.value == rs + ([r] + rest.value);
    }
  }

  method RelevantRuns(runs: seq<RawRun>, current: int) returns (r: Result<seq<Run>, Error>)
    ensures r == Relevant(Window(runs), current, {})
  {
    var window := Window(runs);
    var relevant: seq<Run>, seen: set<int> := [], {};
    assert window[0..] == window;
    AddToSteps([], Run(0, Success, [], 0), Relevant(window, current, {}));
    for i := 0 to |window|
      invariant Relevant(window, current, {}) == AddTo(relevant, Relevant(window[i..], current, seen))
    {
      var value := window[i];
      assert window[i..][1..] == window[i + 1..];
      if Concerns(value, current) {
        if !WellFormed(value) || value.id in seen {
          return Err(HistoryUnavailable);
        }
        seen := seen + {value.id};
        AddToSteps(relevant, Parsed(value), Relevant(window[i + 1..], current, seen));
        relevant := relevant + [Parsed(value)];
      }
    }
    assert window[|window|..] == [] && relevant + [] == relevant;
    return Ok(relevant);
  }

  /** Every relevant run is well formed, ids are not repeated, and the window bounds their number. */
  lemma {:induction false} RelevantFacts(runs: seq<RawRun>, current: int, seen: set<int>)
    requires Relevant(runs, current, seen).Ok?
    ensures var rs := Relevant(runs, current, seen).value;
            && |rs| <= |runs|
            && forall r :: r in rs ==> r.id > 0 && r.id != current && r.id !in seen && r.conclusion != Unrecognized && ShaOk(r.sha)
  {
    if runs != [] {
      if Concerns(runs[0], current) {
        RelevantFacts(runs[1..], current, seen + {runs[0].id});
      } else {
        RelevantFacts(runs[1..], current, seen);
      }
    }
  }

  // ---- the full-regression marker of one run ----

  predicate MarkerOk(j: Job, runId: int) {
    j.runId > 0 && j.runId == runId && j.status == "completed" && j.conclusion != Unrecognized
  }

  function Markers(jobs: seq<Job>): seq<Job> {
    if jobs == [] then []
    else (if jobs[0].name == MARKER_NAME then [jobs[0]] else []) + Markers(jobs[1..])
  }

  function Marker(jobs: seq<Job>, runId: int): Result<Option<Conclusion>, Error> {
    var ms := Markers(jobs);
    if exists m :: m in ms && !MarkerOk(m, runId) then Err(HistoryUnavailable)
    else if |ms| > 1 then Err(HistoryUnavailable)
    else if ms == [] then Ok(None)
    else if ms[0].conclusion != Success && ms[0].conclusion != Skipped then Err(HistoryUnavailable)
    else Ok(Some(ms[0].conclusion))
  }

  method FullRegressionMarker(jobs: seq<Job>, runId: int) returns (r: Result<Option<Conclusion>, Error>)
    ensures r == Marker(jobs, runId)
  {
    var markers: seq<Conclusion> := [];
    ghost var taken: seq<Job> := [];
    for i := 0 to |jobs|
      invariant Markers(jobs) == taken + Markers(jobs[i..])
      invariant |markers| == |taken| && forall k :: 0 <= k < |taken| ==> markers[k] == taken[k].conclusion
      invariant forall m :: m in taken ==> MarkerOk(m, runId)
    {
      assert jobs[i..][1..] == jobs[i + 1..];
      if jobs[i].name == MARKER_NAME {
        if !MarkerOk(jobs[i], runId) {
          assert jobs[i] in Markers(jobs);
          return Err(HistoryUnavailable);
        }
        markers := markers + [jobs[i].conclusion];
        taken := taken + [jobs[i]];
      }
    }
    assert taken == Markers(jobs);
    if |markers| > 1 {
      return Err(HistoryUnavailable);
    }
    if markers == [] {
      return Ok(None);
    }
    if markers[0] != Success && markers[0] != Skipped {
      return Err(HistoryUnavailable);
    }
    return Ok(Some(markers[0]));
  }

  // ---- the decision ----

  // `jobs` and `states` are the history client: either may fail.
  datatype Client = Client(jobs: int -> Result<seq<Job>, Error>, states: Option<Run -> Result<string, Error>>)

  function MarkerOf(client: Client, r: Run): Result<Option<Conclusion>, Error> {
    match client.jobs(r.id)
    case Err(_) => Err(HistoryUnavailable)
    case Ok(jobs) => Marker(jobs, r.id)
  }

  // The scan for an anchor, newest run first.
  datatype Scan = Scan(anchor: Option<Run>, laterFailure: Option<Run>, depth: nat)

  function ScanRuns(client: Client, runs: seq<Run>, failure: Option<Run>, depth: nat): Result<Scan, Error> {
    if runs == [] then Ok(Scan(None, failure, depth))
    else if runs[0].conclusion != Success then
      ScanRuns(client, runs[1..], if failure.None? then Some(runs[0]) else failure, depth + 1)
    else match MarkerOf(client, runs[0])
      case Err(e) => Err(e)
      case Ok(m) =>
        if m == Some(Success) then Ok(Scan(Some(runs[0]), failure, depth + 1))
        else ScanRuns(client, runs[1..], failure, depth + 1)
  }

  predicate PositiveId(r: Option<Run>) {
    r.Some? ==> r.value.id > 0
  }

  /** The schema check a decision must pass before it is used. */
  predicate ValidDecision(d: Decision) {
    && (d.reason.RetryAfter? ==> d.reason.conclusion != Success && d.reason.conclusion != Unrecognized)
    && (d.currentSha.Some? ==> ShaOk(d.currentSha.value))
    && PositiveId(d.previous) && PositiveId(d.anchor)
    && (d.previous.Some? ==> d.previous.value.conclusion != Unrecognized)
    && (d.anchor.Some? ==> ShaOk(d.anchor.value.sha))
    && (d.currentState.Some? ==> StateOk(d.currentState.value))
    && (d.anchorState.Some? ==> StateOk(d.anchorState.value))
    && d.depth <= 100
    && (if !d.runFull then
          && ((d.reason == AlreadySuccessfullyCovered
               && d.currentSha == (if d.anchor.Some? then Some(d.anchor.value.sha) else None))
              || (d.reason == UnchangedState && d.currentState.Some? && d.currentState == d.anchorState))
          && d.previous.Some? && d.previous.value.conclusion == Success && d.anchor.Some?
        else d.reason != AlreadySuccessfullyCovered && d.reason != UnchangedState)
  }

  function Checked(d: Decision): Result<Decision, Error> {
    if ValidDecision(d) then Ok(d) else Err(InvalidDecision)
  }

  function DecideAgainst(sha: string, digest: Option<string>, client: Client, previous: Run, scan: Scan): Result<Decision, Error> {
    var base := Decision(true, NoCoverageAnchor, Some(sha), digest, Some(previous), scan.anchor, None, scan.depth);
    if scan.anchor.None? then Checked(base)
    else if scan.laterFailure.Some? then Checked(base.(reason := RetryAfter(scan.laterFailure.value.conclusion)))
    else if digest.None? then
      if scan.anchor.value.sha != sha then Checked(base.(reason := ShaChanged))
      else Checked(base.(runFull := false, reason := AlreadySuccessfullyCovered))
    else if !StateOk(digest.value) || client.states.None? then Err(HistoryUnavailable)
    else match client.states.value(scan.anchor.value)
      case Err(_) => Err(HistoryUnavailable)
      case Ok(state) =>
        if !StateOk(state) then Err(HistoryUnavailable)
        else if state != digest.value then Checked(base.(reason := StateChanged, anchorState := Some(state)))
        else Checked(base.(runFull := false, reason := UnchangedState, anchorState := Some(state)))
  }

  function DecideRelevant(sha: string, digest: Option<string>, client: Client, relevant: seq<Run>): Result<Decision, Error> {
    if relevant == [] then Checked(Decision(true, FirstScheduledRun, Some(sha), digest, None, None, None, 0))
    else if relevant[0].conclusion != Success then
      Checked(Decision(true, RetryAfter(relevant[0].conclusion), Some(sha), digest, Some(relevant[0]), None, None, 1))
    else match ScanRuns(client, relevant, None, 0)
      case Err(e) => Err(e)
      case Ok(scan) => DecideAgainst(sha, digest, client, relevant[0], scan)
  }

  function Decide(sha: string, current: int, runs: seq<RawRun>, digest: Option<string>, client: Client): Result<Decision, Error> {
    if !ShaOk(sha) then Err(HistoryUnavailable)
    else match Relevant(Window(runs), current, {})
      case Err(e) => Err(e)
      case Ok(relevant) => DecideRelevant(sha, digest, client, relevant)
  }

  method DecideSchedule(sha: string, current: int, runs: seq<RawRun>, digest: Option<string>, client: Client)
    returns (r: Result<Decision, Error>)
    ensures r == Decide(sha, current, runs, digest, client)
    ensures r.Ok? ==> exists rs :: IsHistory(runs, current, rs) && IsDecision(sha, digest, client, rs, r.value)
  {
    DecisionMeans(sha, current, runs, digest, client);
    if !ShaOk(sha) {
      return Err(HistoryUnavailable);
    }
    var listed := RelevantRuns(runs, current);
    if listed.Err? {
      return Err(listed.error);
    }
    var relevant := listed.value;
    if relevant == [] {
      return Checked(Decision(true, FirstScheduledRun, Some(sha), digest, None, None, None, 0));
    }
    var previous := relevant[0];
    if previous.conclusion != Success {
      return Checked(Decision(true, RetryAfter(previous.conclusion), Some(sha), digest, Some(previous), None, None, 1));
    }
    var anchor: Option<Run>, laterFailure: Option<Run>, depth: nat := None, None, 0;
    var i := 0;
    while i < |relevant| && anchor.None?
      invariant 0 <= i <= |relevant|
      invariant anchor.None? ==>
                  ScanRuns(client, relevant, None, 0) == ScanRuns(client, relevant[i..], laterFailure, depth)
      invariant anchor.Some? ==> ScanRuns(client, relevant, None, 0) == Ok(Scan(anchor, laterFailure, depth))
      decreases |relevant| - i
    {
      var run := relevant[i];
      assert relevant[i..][1..] == relevant[i + 1..];
      depth := depth + 1;
      i := i + 1;
      if run.conclusion != Success {
        if laterFailure.None? {
          laterFailure := Some(run);
        }
      } else {
        var jobs := client.jobs(run.id);
        if jobs.Err? {
          return Err(HistoryUnavailable);
        }
        var marker := FullRegressionMarker(jobs.value, run.id);
        if marker.Err? {
          return Err(marker.error);
        }
        if marker.value == Some(Success) {
          anchor := Some(run);
        }
      }
    }
    r := DecideAgainst(sha, digest, client, previous, Scan(anchor, laterFailure, depth));
  }

  // ---- what a decision means ----

  /** `k` is the newest full pass: every newer run succeeded without running the full regression. */
  ghost predicate CleanAnchor(client: Client, runs: seq<Run>, k: nat) {
    && k < |runs|
    && (forall j :: 0 <= j <= k ==> runs[j].conclusion == Success)
    && (forall j :: 0 <= j < k ==> MarkerOf(client, runs[j]) == Ok(None) || MarkerOf(client, runs[j]) == Ok(Some(Skipped)))
    && MarkerOf(client, runs[k]) == Ok(Some(Success))
  }

  lemma MarkerIs(jobs: seq<Job>, runId: int)
    ensures Marker(jobs, runId).Ok? ==> Marker(jobs, runId).value in {None, Some(Success), Some(Skipped)}
  {
  }

  lemma {:induction false} ScanBound(client: Client, runs: seq<Run>, failure: Option<Run>, depth: nat)
    requires ScanRuns(client, runs, failure, depth).Ok?
    ensures var s := ScanRuns(client, runs, failure, depth).value;
            && s.depth <= depth + |runs|
            && (s.anchor.Some? ==> s.anchor.value in runs && s.anchor.value.conclusion == Success)
            && (failure.Some? ==> s.laterFailure == failure)
            && (s.laterFailure.Some? && failure.None? ==>
                  s.laterFailure.value in runs && s.laterFailure.value.conclusion != Success)
  {
    if runs != [] {
      if runs[0].conclusion != Success {
        ScanBound(client, runs[1..], if failure.None? then Some(runs[0]) else failure, depth + 1);
      } else if MarkerOf(client, runs[0]) != Ok(Some(Success)) {
        ScanBound(client, runs[1..], failure, depth + 1);
      }
    }
  }

  /** The scan finds an anchor with no later failure exactly when some run is a clean anchor, and finds that run. */
  lemma {:induction false} ScanFindsCleanAnchor(client: Client, runs: seq<Run>, depth: nat) returns (k: nat)
    requires ScanRuns(client, runs, None, depth).Ok?
    requires ScanRuns(client, runs, None, depth).value.anchor.Some?
    requires ScanRuns(client, runs, None, depth).value.laterFailure.None?
    ensures CleanAnchor(client, runs, k)
    ensures ScanRuns(client, runs, None, depth).value == Scan(Some(runs[k]), None, depth + k + 1)
  {
    if runs[0].conclusion != Success {
      ScanBound(client, runs[1..], Some(runs[0]), depth + 1);
      assert false;
    } else if MarkerOf(client, runs[0]) == Ok(Some(Success)) {
      k := 0;
    } else {
      k := ScanFindsCleanAnchor(client, runs[1..], depth + 1);
      MarkerIs(client.jobs(runs[0].id).value, runs[0].id);
      k := k + 1;
      forall j | 0 <= j <= k ensures runs[j].conclusion == Success { if j > 0 { assert runs[j] == runs[1..][j - 1]; } }
      forall j | 0 <= j < k
        ensures MarkerOf(client, runs[j]) == Ok(None) || MarkerOf(client, runs[j]) == Ok(Some(Skipped))
      { if j > 0 { assert runs[j] == runs[1..][j - 1]; } }
    }
  }

  lemma {:induction false} CleanAnchorIsFound(client: Client, runs: seq<Run>, depth: nat, k: nat)
    requires CleanAnchor(client, runs, k)
    ensures ScanRuns(client, runs, None, depth) == Ok(Scan(Some(runs[k]), None, depth + k + 1))
  {
    if k > 0 {
      assert runs[0].conclusion == Success;
      assert MarkerOf(client, runs[0]) == Ok(None) || MarkerOf(client, runs[0]) == Ok(Some(Skipped));
      forall j | 0 <= j <= k - 1 ensures runs[1..][j].conclusion == Success { assert runs[1..][j] == runs[j + 1]; }
      forall j | 0 <= j < k - 1
        ensures MarkerOf(client, runs[1..][j]) == Ok(None) || MarkerOf(client, runs[1..][j]) == Ok(Some(Skipped))
      { assert runs[1..][j] == runs[j + 1]; }
      CleanAnchorIsFound(client, runs[1..], depth + 1, k - 1);
    }
  }

  /** The present verification state is the one the anchor's run recorded (or, without digests, the same commit). */
  ghost predicate SameState(sha: string, digest: Option<string>, client: Client, anchor: Run) {
    if digest.None? then anchor.sha == sha
    else StateOk(digest.value) && client.states.Some? && client.states.value(anchor) == Ok(digest.value)
  }

  /**
   A skip is decided if and only if some run in the window is a clean anchor with the
   same state: it passed in full, and every newer run succeeded by skipping.
   */
  lemma SkipIff(sha: string, current: int, runs: seq<RawRun>, digest: Option<string>, client: Client)
    requires ShaOk(sha) && Relevant(Window(runs), current, {}).Ok?
    ensures var relevant := Relevant(Window(runs), current, {}).value;
            (Decide(sha, current, runs, digest, client).Ok? && !Decide(sha, current, runs, digest, client).value.runFull)
            <==> exists k: nat :: CleanAnchor(client, relevant, k) && SameState(sha, digest, client, relevant[k])
  {
    var relevant := Relevant(Window(runs), current, {}).value;
    if Decide(sha, current, runs, digest, client).Ok? && !Decide(sha, current, runs, digest, client).value.runFull {
      var k := SkipHasAnchor(sha, digest, client, relevant);
    }
    if k: nat :| CleanAnchor(client, relevant, k) && SameState(sha, digest, client, relevant[k]) {
      RelevantFacts(Window(runs), current, {});
      AnchorGivesSkip(sha, digest, client, relevant, k);
    }
  }

  lemma SkipHasAnchor(sha: string, digest: Option<string>, client: Client, relevant: seq<Run>) returns (k: nat)
    requires DecideRelevant(sha, digest, client, relevant).Ok?
    requires !DecideRelevant(sha, digest, client, relevant).value.runFull
    ensures CleanAnchor(client, relevant, k) && SameState(sha, digest, client, relevant[k])
  {
    k := ScanFindsCleanAnchor(client, relevant, 0);
  }

  lemma AnchorGivesSkip(sha: string, digest: Option<string>, client: Client, relevant: seq<Run>, k: nat)
    requires ShaOk(sha) && |relevant| <= 100
    requires forall r :: r in relevant ==> r.id > 0 && ShaOk(r.sha)
    requires CleanAnchor(client, relevant, k) && SameState(sha, digest, client, relevant[k])
    ensures DecideRelevant(sha, digest, client, relevant).Ok?
    ensures !DecideRelevant(sha, digest, client, relevant).value.runFull
  {
    assert relevant[0].conclusion == Success;
    CleanAnchorIsFound(client, relevant, 0, k);
    assert relevant[k] in relevant && relevant[0] in relevant;
  }

  /** With no digest or a well-formed one, every decision the selector builds passes the schema check. */
  lemma DecisionsAreValid(sha: string, current: int, runs: seq<RawRun>, digest: Option<string>, client: Client)
    requires digest.Some? ==> StateOk(digest.value)
    ensures Decide(sha, current, runs, digest, client) != Err(InvalidDecision)
    ensures Decide(sha, current, runs, digest, client).Ok? ==> ValidDecision(Decide(sha, current, runs, digest, client).value)
  {
    RelevantErrors(Window(runs), current, {});
    if ShaOk(sha) && Relevant(Window(runs), current, {}).Ok? {
      RelevantFacts(Window(runs), current, {});
      RelevantDecisionIsValid(sha, digest, client, Relevant(Window(runs), current, {}).value);
    }
  }

  lemma RelevantDecisionIsValid(sha: string, digest: Option<string>, client: Client, relevant: seq<Run>)
    requires ShaOk(sha) && (digest.Some? ==> StateOk(digest.value)) && |relevant| <= 100
    requires forall r :: r in relevant ==> r.id > 0 && r.conclusion != Unrecognized && ShaOk(r.sha)
    ensures var d := DecideRelevant(sha, digest, client, relevant);
            d != Err(InvalidDecision) && (d.Ok? ==> ValidDecision(d.value))
  {
    if relevant != [] {
      assert relevant[0] in relevant;
      ScanErrors(client, relevant, None, 0);
      if ScanRuns(client, relevant, None, 0).Ok? { ScanBound(client, relevant, None, 0); }
    }
  }

  lemma {:induction false} RelevantErrors(runs: seq<RawRun>, current: int, seen: set<int>)
    ensures Relevant(runs, current, seen).Err? ==> Relevant(runs, current, seen).error == HistoryUnavailable
  {
    if runs != [] {
      RelevantErrors(runs[1..], current, seen);
      RelevantErrors(runs[1..], current, seen + {runs[0].id});
    }
  }

  lemma {:induction false} ScanErrors(client: Client, runs: seq<Run>, failure: Option<Run>, depth: nat)
    ensures ScanRuns(client, runs, failure, depth).Err? ==> ScanRuns(client, runs, failure, depth).error == HistoryUnavailable
  {
    if runs != [] {
      ScanErrors(client, runs[1..], if failure.None? then Some(runs[0]) else failure, depth + 1);
      ScanErrors(client, runs[1..], failure, depth + 1);
    }
  }

  /**
   A malformed digest makes the selector fail its own check, instead of reporting the
   history unavailable, if and only if the history can be read and does not show a
   clean anchor: only the last branch looks at the digest before using it.
   */
  lemma MalformedDigestIff(sha: string, current: int, runs: seq<RawRun>, digest: string, client: Client)
    requires ShaOk(sha) && !StateOk(digest)
    requires Relevant(Window(runs), current, {}).Ok?
    ensures var relevant := Relevant(Window(runs), current, {}).value;
            Decide(sha, current, runs, Some(digest), client) == Err(InvalidDecision)
            <==> || relevant == [] || relevant[0].conclusion != Success
                 || (ScanRuns(client, relevant, None, 0).Ok? && !exists k: nat :: CleanAnchor(client, relevant, k))
  {
    var relevant := Relevant(Window(runs), current, {}).value;
    if relevant != [] && relevant[0].conclusion == Success {
      ScanErrors(client, relevant, None, 0);
      if k: nat :| CleanAnchor(client, relevant, k) {
        CleanAnchorIsFound(client, relevant, 0, k);
      } else if ScanRuns(client, relevant, None, 0).Ok? {
        var scan := ScanRuns(client, relevant, None, 0).value;
        if scan.anchor.Some? && scan.laterFailure.None? {
          var k := ScanFindsCleanAnchor(client, relevant, 0);
        }
      }
    }
  }

  /** A malformed digest is refused even when there is no history at all. */
  lemma MalformedDigestRaises(sha: string, client: Client)
    requires ShaOk(sha)
    ensures Decide(sha, 1, [], Some("x"), client) == Err(InvalidDecision)
  {
    assert !StateOk("x");
    MalformedDigestIff(sha, 1, [], "x", client);
  }

  /** The decision used when the history cannot be read. */
  function Unavailable(sha: string, digest: Option<string>): Decision {
    Decision(true, NoHistory, if ShaOk(sha) then Some(sha) else None,
             if digest.Some? && StateOk(digest.value) then digest else None, None, None, None, 0)
  }

  /** It is a full run that claims nothing about the history, and keeps only well-formed inputs. */
  lemma UnavailableIsValid(sha: string, digest: Option<string>)
    ensures var d := Unavailable(sha, digest);
            && ValidDecision(d) && d.runFull && d.reason == NoHistory
            && d.previous == d.anchor == None && d.anchorState == None && d.depth == 0
            && (d.currentSha == if IsHex(sha, 40) then Some(sha) else None)
            && (d.currentState == if digest.Some? && IsHex(digest.value, 64) then digest else None)
  {
    HexIff(sha, 40);
    if digest.Some? { HexIff(digest.value, 64); }
  }

  // ---- what the history says ----

  // Stated on the runs, the jobs and the client, without the functions of the decision.

  ghost predicate IsHex(s: string, n: nat) {
    |s| == n && forall k :: 0 <= k < |s| ==> '0' <= s[k] <= '9' || 'a' <= s[k] <= 'f'
  }

  lemma HexIff(s: string, n: nat)
    ensures IsHexDigest(s, n) <==> IsHex(s, n)
  {
    if IsHexDigest(s, n) { assert forall k :: 0 <= k < |s| ==> s[k] in s; }
  }

  /** A scheduled run of the workflow on the main branch, other than the present one. */
  ghost predicate IsScheduled(r: RawRun, current: int) {
    && r.id != current && r.event == "schedule" && r.branch == "main"
    && (r.path == WORKFLOW_PATH || exists revision :: r.path == WORKFLOW_PATH + "@" + revision)
  }

  ghost predicate IsReadable(r: RawRun) {
    r.id > 0 && r.status == "completed" && r.conclusion != Unrecognized && IsHex(r.sha, 40) && r.attempt > 0
  }

  ghost predicate IsPick(raw: RawRun, r: Run) {
    IsReadable(raw) && r.id == raw.id && r.conclusion == raw.conclusion && r.sha == raw.sha && r.attempt == raw.attempt
  }

  /** The scheduled runs in their order. */
  ghost function Picked(runs: seq<RawRun>, current: int): seq<RawRun> {
    if runs == [] then []
    else Picked(runs[..|runs| - 1], current) + if IsScheduled(runs[|runs| - 1], current) then [runs[|runs| - 1]] else []
  }

  /** `rs` are these runs, one for one, all readable and with different ids. */
  ghost predicate ArePicks(picked: seq<RawRun>, rs: seq<Run>) {
    && |rs| == |picked| && (forall j :: 0 <= j < |rs| ==> IsPick(picked[j], rs[j]))
    && (forall i, j :: 0 <= i < j < |rs| ==> rs[i].id != rs[j].id)
  }

  /** A scheduled run cannot be read, or has the id of an earlier one. */
  ghost predicate IsBroken(runs: seq<RawRun>, current: int, k: int) {
    && 0 <= k < |runs| && IsScheduled(runs[k], current)
    && (!IsReadable(runs[k]) || exists j :: 0 <= j < k && IsScheduled(runs[j], current) && runs[j].id == runs[k].id)
  }

  ghost function Newest(runs: seq<RawRun>): seq<RawRun> {
    if |runs| <= 100 then runs else runs[..100]
  }

  /** The scheduled runs among the newest hundred. */
  ghost predicate IsHistory(runs: seq<RawRun>, current: int, rs: seq<Run>) {
    ArePicks(Picked(Newest(runs), current), rs)
  }

  lemma {:induction false} BeforeAtIs(path: string)
    ensures exists tail: string :: path == BeforeAt(path) + tail && (tail == [] || tail[0] == '@')
  {
    if path == [] || path[0] == '@' {
      assert path == BeforeAt(path) + path;
    } else {
      BeforeAtIs(path[1..]);
      var tail :| path[1..] == BeforeAt(path[1..]) + tail && (tail == [] || tail[0] == '@');
      assert path == [path[0]] + path[1..] == BeforeAt(path) + tail;
    }
  }

  lemma {:induction false} BeforeAtOf(head: string, tail: string)
    requires '@' !in head && (tail == [] || tail[0] == '@')
    ensures BeforeAt(head + tail) == head
  {
    if head == [] {
      assert head + tail == tail;
    } else {
      assert (head + tail)[1..] == head[1..] + tail && (head + tail)[0] == head[0];
      BeforeAtOf(head[1..], tail);
      assert [head[0]] + head[1..] == head;
    }
  }

  lemma WorkflowHasNoAt()
    ensures '@' !in WORKFLOW_PATH
  {
    assert '@' !in ".github/workflows/" && '@' !in "scheduled-full-" && '@' !in "regression.yml";
  }

  lemma BeforeAtIff(path: string, head: string)
    requires '@' !in head
    ensures BeforeAt(path) == head <==> path == head || exists revision :: path == head + "@" + revision
  {
    if BeforeAt(path) == head {
      BeforeAtIs(path);
      var tail :| path == head + tail && (tail == [] || tail[0] == '@');
      if tail == [] { assert path == head; } else { assert path == head + "@" + tail[1..]; }
    }
    if path == head {
      BeforeAtOf(head, []);
      assert head + [] == head;
    }
    if revision :| path == head + "@" + revision {
      BeforeAtOf(head, "@" + revision);
      assert path == head + ("@" + revision);
    }
  }

  lemma ScheduledIff(r: RawRun, current: int)
    ensures Concerns(r, current) <==> IsScheduled(r, current)
    ensures WellFormed(r) <==> IsReadable(r)
  {
    WorkflowHasNoAt();
    BeforeAtIff(r.path, WORKFLOW_PATH);
    HexIff(r.sha, 40);
  }

  /** A scheduled run is broken, or was seen before. */
  ghost predicate Spoils(runs: seq<RawRun>, current: int, seen: set<int>, k: int) {
    IsBroken(runs, current, k) || (0 <= k < |runs| && IsScheduled(runs[k], current) && runs[k].id in seen)
  }

  ghost predicate NotSeen(rs: seq<Run>, seen: set<int>) {
    forall r :: r in rs ==> r.id !in seen
  }

  /** What reading the runs gives: the scheduled ones, or an error when one of them is broken or was seen before. */
  lemma {:induction false} RelevantMeans(runs: seq<RawRun>, current: int, seen: set<int>)
    ensures var r := Relevant(runs, current, seen);
            && (r.Ok? ==> ArePicks(Picked(runs, current), r.value) && NotSeen(r.value, seen))
            && (r.Err? ==> r.error == HistoryUnavailable && exists k :: Spoils(runs, current, seen, k))
  {
    if runs != [] {
      var first, rest := runs[0], runs[1..];
      ScheduledIff(first, current);
      PickedFirst(runs, current);
      if !IsScheduled(first, current) {
        RelevantMeans(rest, current, seen);
        if Relevant(rest, current, seen).Err? { SpoilsLater(runs, current, seen, seen); }
      } else if IsReadable(first) && first.id !in seen {
        RelevantMeans(rest, current, seen + {first.id});
        if Relevant(rest, current, seen + {first.id}).Ok? {
          ScheduledFirst(first, Picked(rest, current), Relevant(rest, current, seen + {first.id}).value);
        } else {
          SpoilsLater(runs, current, seen, seen + {first.id});
        }
      } else {
        assert Spoils(runs, current, seen, 0);
      }
    }
  }

  lemma {:induction false} PickedFirst(runs: seq<RawRun>, current: int)
    requires runs != []
    ensures Picked(runs, current) == (if IsScheduled(runs[0], current) then [runs[0]] else []) + Picked(runs[1..], current)
  {
    var n := |runs| - 1;
    if n > 0 {
      PickedFirst(runs[..n], current);
      assert runs[..n][1..] == runs[1..][..n - 1] && runs[1..][n - 1] == runs[n] && runs[..n][0] == runs[0];
    }
  }

  lemma ScheduledFirst(first: RawRun, picked: seq<RawRun>, rs: seq<Run>)
    requires ArePicks(picked, rs) && IsReadable(first) && NotSeen(rs, {first.id})
    ensures ArePicks([first] + picked, [Parsed(first)] + rs)
  {
    var all := [Parsed(first)] + rs;
    forall i, j | 0 <= i < j < |all| ensures all[i].id != all[j].id { assert rs[j - 1] in rs; }
  }

  lemma SpoilsLater(runs: seq<RawRun>, current: int, seen: set<int>, more: set<int>)
    requires runs != [] && exists k :: Spoils(runs[1..], current, more, k)
    requires more == seen || (IsScheduled(runs[0], current) && more == seen + {runs[0].id})
    ensures exists k :: Spoils(runs, current, seen, k)
  {
    var k :| Spoils(runs[1..], current, more, k);
    if IsBroken(runs[1..], current, k) { BrokenLater(runs, current, k); } else { assert runs[k + 1] == runs[1..][k]; }
    assert Spoils(runs, current, seen, k + 1);
  }

  lemma BrokenLater(runs: seq<RawRun>, current: int, k: int)
    requires runs != [] && IsBroken(runs[1..], current, k)
    ensures IsBroken(runs, current, k + 1)
  {
    if IsReadable(runs[1..][k]) {
      var j :| 0 <= j < k && IsScheduled(runs[1..][j], current) && runs[1..][j].id == runs[1..][k].id;
      assert runs[j + 1] == runs[1..][j];
    }
  }

  /** The runs the selector decides on are the history, or the history is broken. */
  lemma HistoryMeans(runs: seq<RawRun>, current: int)
    ensures var r := Relevant(Window(runs), current, {});
            && (r.Ok? ==> IsHistory(runs, current, r.value))
            && (r.Err? ==> r.error == HistoryUnavailable && exists k :: k < 100 && IsBroken(runs, current, k))
  {
    RelevantMeans(Newest(runs), current, {});
    if Relevant(Newest(runs), current, {}).Err? {
      var k :| Spoils(Newest(runs), current, {}, k);
      assert IsBroken(runs, current, k);
    }
  }

  // ---- what the markers of a run say ----

  ghost predicate IsMarker(j: Job) {
    j.name == "full-regression"
  }

  /** The jobs of the run have no marker, or one, completed, of this run, that passed or was skipped. */
  ghost predicate SaysMarker(jobs: seq<Job>, runId: int, m: Option<Conclusion>) {
    match m
    case None => forall k :: 0 <= k < |jobs| ==> !IsMarker(jobs[k])
    case Some(c) =>
      && (c == Success || c == Skipped) && runId > 0
      && exists k :: IsOnlyMarker(jobs, k) && jobs[k] == Job("full-regression", runId, "completed", c)
  }

  lemma {:induction false} MarkersAre(jobs: seq<Job>)
    ensures forall j :: j in Markers(jobs) <==> j in jobs && IsMarker(j)
    ensures Markers(jobs) == [] <==> forall k :: 0 <= k < |jobs| ==> !IsMarker(jobs[k])
  {
    if jobs != [] {
      MarkersAre(jobs[1..]);
      assert forall j :: j in jobs <==> j == jobs[0] || j in jobs[1..];
    }
  }

  /** The job at `k` is the only marker. */
  ghost predicate IsOnlyMarker(jobs: seq<Job>, k: int) {
    0 <= k < |jobs| && IsMarker(jobs[k]) && forall i :: 0 <= i < |jobs| && i != k ==> !IsMarker(jobs[i])
  }

  lemma {:induction false} OneMarker(jobs: seq<Job>, k: int)
    requires IsOnlyMarker(jobs, k)
    ensures Markers(jobs) == [jobs[k]]
  {
    var rest := jobs[1..];
    assert forall i :: 0 <= i < |rest| ==> rest[i] == jobs[i + 1];
    if k == 0 { MarkersAre(rest); } else { OneMarker(rest, k - 1); }
  }

  lemma {:induction false} MarkerHasPlace(jobs: seq<Job>) returns (k: int)
    requires |Markers(jobs)| == 1
    ensures IsOnlyMarker(jobs, k)
  {
    var rest := jobs[1..];
    assert forall i :: 0 <= i < |rest| ==> rest[i] == jobs[i + 1];
    if IsMarker(jobs[0]) {
      assert Markers(jobs) == [jobs[0]] + Markers(rest);
      MarkersAre(rest);
      k := 0;
    } else {
      assert Markers(jobs) == Markers(rest);
      k := MarkerHasPlace(rest);
      k := k + 1;
    }
  }

  /** The marker of a run is read exactly when its jobs say it; anything else makes the history unavailable. */
  lemma MarkerMeans(jobs: seq<Job>, runId: int, m: Option<Conclusion>)
    ensures Marker(jobs, runId) == Ok(m) <==> SaysMarker(jobs, runId, m)
    ensures Marker(jobs, runId).Err? ==> Marker(jobs, runId).error == HistoryUnavailable
  {
    MarkersAre(jobs);
    if |Markers(jobs)| == 1 {
      var k := MarkerHasPlace(jobs);
      OneMarker(jobs, k);
    }
    if SaysMarker(jobs, runId, m) && m.Some? {
      var k :| IsOnlyMarker(jobs, k) && jobs[k] == Job("full-regression", runId, "completed", m.value);
      OneMarker(jobs, k);
    }
  }

  /** The client shows this marker for the run. */
  ghost predicate Shows(client: Client, r: Run, m: Option<Conclusion>) {
    client.jobs(r.id).Ok? && SaysMarker(client.jobs(r.id).value, r.id, m)
  }

  lemma ShowsIff(client: Client, r: Run, m: Option<Conclusion>)
    ensures MarkerOf(client, r) == Ok(m) <==> Shows(client, r, m)
    ensures MarkerOf(client, r).Err? ==> MarkerOf(client, r).error == HistoryUnavailable
  {
    if client.jobs(r.id).Ok? { MarkerMeans(client.jobs(r.id).value, r.id, m); }
  }

  // ---- what a decision says ----

  /** The run succeeded and its marker says that nothing was run in full. */
  ghost predicate IsPassed(client: Client, r: Run) {
    r.conclusion == Success ==> Shows(client, r, None) || Shows(client, r, Some(Skipped))
  }

  /** The newest run that succeeded in full; the markers of newer successes can be read. */
  ghost predicate IsAnchor(client: Client, rs: seq<Run>, k: int) {
    && 0 <= k < |rs| && rs[k].conclusion == Success && Shows(client, rs[k], Some(Success))
    && forall j :: 0 <= j < k ==> IsPassed(client, rs[j])
  }

  /** The newest of the first `k` runs that did not succeed. */
  ghost predicate IsNewestFailure(rs: seq<Run>, k: int, j: int) {
    0 <= j < k <= |rs| && rs[j].conclusion != Success && forall i :: 0 <= i < j ==> rs[i].conclusion == Success
  }

  ghost predicate NoFailure(rs: seq<Run>, k: int) {
    k <= |rs| && forall i :: 0 <= i < k ==> rs[i].conclusion == Success
  }

  /** What the scan for an anchor finds. */
  ghost predicate IsScan(client: Client, rs: seq<Run>, scan: Scan) {
    && 0 <= scan.depth <= |rs|
    && (match scan.anchor
        case None => scan.depth == |rs| && forall j :: 0 <= j < |rs| ==> IsPassed(client, rs[j])
        case Some(a) => scan.depth > 0 && IsAnchor(client, rs, scan.depth - 1) && a == rs[scan.depth - 1])
    && (match scan.laterFailure
        case None => NoFailure(rs, scan.depth)
        case Some(f) => exists j :: IsNewestFailure(rs, scan.depth, j) && f == rs[j])
  }

  /** The marker of a success before any anchor cannot be read. */
  ghost predicate IsUnreadable(client: Client, rs: seq<Run>) {
    exists k :: && 0 <= k < |rs| && rs[k].conclusion == Success && (forall m :: !Shows(client, rs[k], m))
                && forall j :: 0 <= j < k ==> IsPassed(client, rs[j])
  }

  /** What the scan says of the runs before the present one, and of those still to come. */
  ghost predicate IsScanned(client: Client, rs: seq<Run>, i: int, failure: Option<Run>) {
    && 0 <= i <= |rs| && (forall j :: 0 <= j < i ==> IsPassed(client, rs[j]))
    && match failure
       case None => NoFailure(rs, i)
       case Some(f) => exists j :: IsNewestFailure(rs, i, j) && f == rs[j]
  }

  lemma ScannedOne(client: Client, rs: seq<Run>, i: int, failure: Option<Run>)
    requires IsScanned(client, rs, i, failure) && i < |rs| && IsPassed(client, rs[i])
    ensures IsScanned(client, rs, i + 1, if rs[i].conclusion != Success && failure.None? then Some(rs[i]) else failure)
  {
    if failure.Some? {
      var j :| IsNewestFailure(rs, i, j) && failure.value == rs[j];
      assert IsNewestFailure(rs, i + 1, j);
    } else if rs[i].conclusion != Success {
      assert IsNewestFailure(rs, i + 1, i);
    }
  }

  lemma {:induction false} ScanMeans(client: Client, rs: seq<Run>, i: nat, failure: Option<Run>)
    requires IsScanned(client, rs, i, failure)
    ensures var r := ScanRuns(client, rs[i..], failure, i);
            && (r.Ok? ==> IsScan(client, rs, r.value)) && (r.Err? ==> r.error == HistoryUnavailable && IsUnreadable(client, rs))
    decreases |rs| - i
  {
    if i < |rs| {
      assert rs[i..][0] == rs[i] && rs[i..][1..] == rs[i + 1..];
      forall m ensures MarkerOf(client, rs[i]) == Ok(m) <==> Shows(client, rs[i], m) { ShowsIff(client, rs[i], m); }
      if rs[i].conclusion != Success {
        ScannedOne(client, rs, i, failure);
        ScanMeans(client, rs, i + 1, if failure.None? then Some(rs[i]) else failure);
      } else if MarkerOf(client, rs[i]).Err? {
        ShowsIff(client, rs[i], None);
        assert forall m :: !Shows(client, rs[i], m);
      } else if MarkerOf(client, rs[i]).value == Some(Success) {
        AnchorScanned(client, rs, i, failure);
      } else {
        var m := MarkerOf(client, rs[i]).value;
        assert Shows(client, rs[i], m);
        ScannedOne(client, rs, i, failure);
        ScanMeans(client, rs, i + 1, failure);
      }
    }
  }

  lemma AnchorScanned(client: Client, rs: seq<Run>, i: nat, failure: Option<Run>)
    requires IsScanned(client, rs, i, failure) && i < |rs| && rs[i].conclusion == Success && Shows(client, rs[i], Some(Success))
    ensures IsScan(client, rs, Scan(Some(rs[i]), failure, i + 1))
  {
    if failure.Some? {
      var j :| IsNewestFailure(rs, i, j) && failure.value == rs[j];
      assert IsNewestFailure(rs, i + 1, j);
    }
  }

  /** The decision speaks of this anchor, at its depth, with no failure since. */
  ghost predicate CleanAt(client: Client, rs: seq<Run>, d: Decision) {
    d.depth > 0 && IsAnchor(client, rs, d.depth - 1) && NoFailure(rs, d.depth) && d.anchor == Some(rs[d.depth - 1])
  }

  /** What each reason says of the history, and what else the decision then holds. */
  ghost predicate IsDecision(sha: string, digest: Option<string>, client: Client, rs: seq<Run>, d: Decision) {
    && d.currentSha == Some(sha) && d.currentState == digest
    && d.previous == (if rs == [] then None else Some(rs[0]))
    && (d.anchorState.Some? ==> d.reason == StateChanged || d.reason == UnchangedState)
    && match d.reason
       case FirstScheduledRun => rs == [] && d.runFull && d.anchor == None && d.depth == 0
       case NoCoverageAnchor =>
         && rs != [] && rs[0].conclusion == Success && (forall j :: 0 <= j < |rs| ==> IsPassed(client, rs[j]))
         && d.runFull && d.anchor == None && d.depth == |rs|
       case RetryAfter(c) =>
         && rs != [] && d.runFull && c != Success
         && if rs[0].conclusion != Success then c == rs[0].conclusion && d.anchor == None && d.depth == 1
            else && d.depth > 0 && IsAnchor(client, rs, d.depth - 1) && d.anchor == Some(rs[d.depth - 1])
                 && exists j :: IsNewestFailure(rs, d.depth, j) && c == rs[j].conclusion
       case ShaChanged => d.runFull && digest == None && CleanAt(client, rs, d) && d.anchor.value.sha != sha
       case AlreadySuccessfullyCovered => !d.runFull && digest == None && CleanAt(client, rs, d) && d.anchor.value.sha == sha
       case StateChanged => d.runFull && CleanAt(client, rs, d) && StatesDiffer(client, digest, d)
       case UnchangedState => !d.runFull && CleanAt(client, rs, d) && StatesAgree(client, digest, d)
       case NoHistory => false
  }

  ghost predicate StatesAgree(client: Client, digest: Option<string>, d: Decision) {
    && digest.Some? && IsHex(digest.value, 64) && client.states.Some? && d.anchor.Some?
    && client.states.value(d.anchor.value) == Ok(digest.value) && d.anchorState == digest
  }

  ghost predicate StatesDiffer(client: Client, digest: Option<string>, d: Decision) {
    && digest.Some? && IsHex(digest.value, 64) && client.states.Some? && d.anchor.Some? && d.anchorState.Some? && d.anchorState != digest
    && IsHex(d.anchorState.value, 64) && client.states.value(d.anchor.value) == Ok(d.anchorState.value)
  }

  /** The state of a clean anchor cannot be compared. */
  ghost predicate IsIncomparable(client: Client, digest: string, anchor: Run) {
    || !IsHex(digest, 64) || client.states.None?
    || client.states.value(anchor).Err? || !IsHex(client.states.value(anchor).value, 64)
  }

  lemma AgainstMeans(sha: string, digest: Option<string>, client: Client, rs: seq<Run>, scan: Scan)
    requires rs != [] && rs[0].conclusion == Success && IsScan(client, rs, scan)
    ensures var r := DecideAgainst(sha, digest, client, rs[0], scan);
            && (r.Ok? ==> IsDecision(sha, digest, client, rs, r.value))
            && (r == Err(HistoryUnavailable) ==>
                  && digest.Some? && scan.anchor.Some? && scan.laterFailure.None? && IsIncomparable(client, digest.value, scan.anchor.value))
  {
    if digest.Some? { HexIff(digest.value, 64); }
    if scan.anchor.Some? && client.states.Some? && client.states.value(scan.anchor.value).Ok? {
      HexIff(client.states.value(scan.anchor.value).value, 64);
    }
  }

  /** Why the history is unavailable. */
  ghost predicate IsUnavailable(sha: string, digest: Option<string>, client: Client, rs: seq<Run>) {
    && rs != [] && rs[0].conclusion == Success
    && (IsUnreadable(client, rs)
        || (digest.Some? && exists k :: IsAnchor(client, rs, k) && NoFailure(rs, k) && IsIncomparable(client, digest.value, rs[k])))
  }

  lemma RelevantDecisionMeans(sha: string, digest: Option<string>, client: Client, rs: seq<Run>)
    ensures var r := DecideRelevant(sha, digest, client, rs);
            && (r.Ok? ==> IsDecision(sha, digest, client, rs, r.value))
            && (r == Err(HistoryUnavailable) ==> IsUnavailable(sha, digest, client, rs))
  {
    if rs != [] && rs[0].conclusion == Success {
      ScanMeans(client, rs, 0, None);
      assert rs[0..] == rs;
      if ScanRuns(client, rs, None, 0).Ok? { AgainstMeans(sha, digest, client, rs, ScanRuns(client, rs, None, 0).value); }
    }
  }

  /**
   What every decision says of the history it was made on; and an unavailable history has a reason: a malformed commit,
   a broken run, an unreadable marker, or a state that cannot be compared.
   */
  lemma DecisionMeans(sha: string, current: int, runs: seq<RawRun>, digest: Option<string>, client: Client)
    ensures var r := Decide(sha, current, runs, digest, client);
            && (r.Ok? ==> IsHex(sha, 40) && exists rs :: IsHistory(runs, current, rs) && IsDecision(sha, digest, client, rs, r.value))
            && (r == Err(HistoryUnavailable) ==>
                  || !IsHex(sha, 40) || (exists k :: k < 100 && IsBroken(runs, current, k))
                  || exists rs :: IsHistory(runs, current, rs) && IsUnavailable(sha, digest, client, rs))
  {
    HexIff(sha, 40);
    HistoryMeans(runs, current);
    if Relevant(Window(runs), current, {}).Ok? {
      RelevantDecisionMeans(sha, digest, client, Relevant(Window(runs), current, {}).value);
    }
  }

  /** The decisions that the check accepts: well-formed parts, and a skip exactly for the two reasons that cover one. */
  lemma ValidDecisionIff(d: Decision)
    ensures ValidDecision(d)
       <==> && (forall s :: d.currentSha == Some(s) ==> IsHex(s, 40)) && (forall r :: d.anchor == Some(r) ==> r.id > 0 && IsHex(r.sha, 40))
            && (forall s :: d.currentState == Some(s) || d.anchorState == Some(s) ==> IsHex(s, 64))
            && (forall r :: d.previous == Some(r) ==> r.id > 0 && r.conclusion != Unrecognized)
            && d.depth <= 100
            && (d.runFull <==> d.reason != AlreadySuccessfullyCovered && d.reason != UnchangedState)
            && (d.reason.RetryAfter? ==> d.reason.conclusion != Success && d.reason.conclusion != Unrecognized)
            && (!d.runFull ==> d.anchor.Some? && exists r :: d.previous == Some(r) && r.conclusion == Success)
            && (d.reason == AlreadySuccessfullyCovered ==> d.anchor.Some? && d.currentSha == Some(d.anchor.value.sha))
            && (d.reason == UnchangedState ==> d.currentState.Some? && d.currentState == d.anchorState)
  {
    if d.currentSha.Some? { HexIff(d.currentSha.value, 40); }
    if d.anchor.Some? { HexIff(d.anchor.value.sha, 40); }
    if d.currentState.Some? { HexIff(d.currentState.value, 64); }
    if d.anchorState.Some? { HexIff(d.anchorState.value, 64); }
    if d.previous.Some? { assert d.previous == Some(d.previous.value); }
  }
}
