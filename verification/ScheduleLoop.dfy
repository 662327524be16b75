/**
 The scheduled regression in closed loop: each run decides from the history the
 earlier runs left, its jobs end in some way, the gate judges them, and the run
 joins the history.
 */
module ScheduleLoop {
  import opened Schedule
  import opened Wrappers

  datatype JobName = Selector | Quality | Factories | Migrations | Django | Playwright | Container | FullRegression

  const COMPONENTS: seq<JobName> := [Quality, Factories, Migrations, Django, Playwright, Container]

  // ---- the gate ----

  /** The gate knows every conclusion but a startup failure. */
  function Normalized(c: Conclusion): Conclusion {
    if c == StartupFailure then Unrecognized else c
  }

  method NormalizeOutcomes(outcomes: map<JobName, Conclusion>, required: seq<JobName>)
    returns (r: Option<map<JobName, Conclusion>>)
    ensures r.Some? <==> outcomes.Keys == set n | n in required
    ensures r.Some? ==> r.value == map n | n in outcomes :: if outcomes[n] == StartupFailure then Unrecognized else outcomes[n]
  {
    if outcomes.Keys != set n | n in required {
      return None;
    }
    var normalized: map<JobName, Conclusion> := map[];
    for i := 0 to |required|
      invariant normalized == map n | n in required[..i] :: Normalized(outcomes[n])
    {
      assert required[i] in outcomes.Keys;
      assert required[..i + 1] == required[..i] + [required[i]];
      normalized := normalized[required[i] := Normalized(outcomes[required[i]])];
    }
    assert required[..|required|] == required;
    return Some(normalized);
  }

  /** Every job the gate looks at, in its order. */
  function Required(): seq<JobName> {
    [Selector] + COMPONENTS + [FullRegression]
  }

  predicate AllEnded(outcomes: map<JobName, Conclusion>, names: seq<JobName>, c: Conclusion) {
    forall n :: n in names ==> n in outcomes && outcomes[n] == c
  }

  /** The verdict: the selector passed and the jobs all did what the decision asked of them. */
  predicate Passes(decision: Option<Decision>, outcomes: map<JobName, Conclusion>) {
    && decision.Some?
    && Selector in outcomes && outcomes[Selector] == Success
    && (if decision.value.runFull then AllEnded(outcomes, Required(), Success)
        else AllEnded(outcomes, COMPONENTS + [FullRegression], Skipped))
  }

  /** What the verdict asks of each job: success, or a skip of everything but the selector when a skip was decided. */
  ghost predicate IsVerdict(decision: Option<Decision>, outcomes: map<JobName, Conclusion>, passed: bool) {
    passed <==> decision.Some? && forall n: JobName ::
                  n in outcomes && outcomes[n] == if n == Selector || decision.value.runFull then Success else Skipped
  }

  lemma PassesIff(decision: Option<Decision>, outcomes: map<JobName, Conclusion>)
    ensures IsVerdict(decision, outcomes, Passes(decision, outcomes))
    ensures outcomes.Keys == (set n | n in Required()) <==> forall n: JobName :: n in outcomes
  {
    forall n: JobName ensures n in Required() && (n == Selector || n in COMPONENTS + [FullRegression]) { EveryJob(n); }
  }

  lemma EveryJob(n: JobName)
    ensures n in Required() && (n == Selector || n in COMPONENTS + [FullRegression])
  {
    var rest := COMPONENTS + [FullRegression];
    assert Required() == [Selector] + rest;
    match n
    case Selector => assert Required()[0] == n;
    case Quality => assert rest[0] == n && Required()[1] == n;
    case Factories => assert rest[1] == n && Required()[2] == n;
    case Migrations => assert rest[2] == n && Required()[3] == n;
    case Django => assert rest[3] == n && Required()[4] == n;
    case Playwright => assert rest[4] == n && Required()[5] == n;
    case Container => assert rest[5] == n && Required()[6] == n;
    case FullRegression => assert rest[6] == n && Required()[7] == n;
  }

  /** The scheduled gate; it raises when the outcomes do not name exactly the required jobs. */
  method ScheduledGate(decision: Option<Decision>, outcomes: map<JobName, Conclusion>) returns (r: Option<bool>)
    ensures r.Some? <==> forall n: JobName :: n in outcomes
    ensures r.Some? ==> r.value == Passes(decision, outcomes) && IsVerdict(decision, outcomes, r.value)
  {
    PassesIff(decision, outcomes);
    var normalized := NormalizeOutcomes(outcomes, Required());
    if normalized.None? {
      return None;
    }
    var n := normalized.value;
    var passed := false;
    assert Selector in Required();
    assert forall j :: j in COMPONENTS + [FullRegression] ==> j in Required();
    assert forall j :: j in Required() ==> j in n && (n[j] == Success <==> outcomes[j] == Success)
                                           && (n[j] == Skipped <==> outcomes[j] == Skipped);
    if decision.Some? && n[Selector] == Success {
      if decision.value.runFull {
        passed := AllEnded(n, Required(), Success);
      } else {
        passed := AllEnded(n, COMPONENTS + [FullRegression], Skipped);
      }
    }
    return Some(passed);
  }

  // ---- the loop ----

  // One finished run as the history keeps it.
  datatype Record = Record(raw: RawRun, digest: string, decision: Decision, outcomes: map<JobName, Conclusion>)

  // What the outside world chooses for the next run: its identity, the state it
  // runs at, how its jobs end, how the run ends if the gate fails it, and what of
  // the history can be read.
  datatype Turn = Turn(id: int, path: string, sha: string, attempt: int, digest: string, outcomes: map<JobName, Conclusion>,
                       failure: Conclusion, historyReadable: bool, jobsReadable: set<int>, statesReadable: set<int>)

  ghost predicate TurnOk(history: seq<Record>, t: Turn) {
    && t.id > 0 && BeforeAt(t.path) == WORKFLOW_PATH && t.attempt > 0 && ShaOk(t.sha) && StateOk(t.digest)
    && t.failure != Success && t.failure != Unrecognized
    && FullRegression in t.outcomes
    && forall r :: r in history ==> r.raw.id != t.id
  }

  /** The jobs of a finished run, as the history client lists them. */
  function JobsOf(r: Record): seq<Job>
    requires FullRegression in r.outcomes
  {
    [Job("selector", r.raw.id, "completed", Success), Job(MARKER_NAME, r.raw.id, "completed", r.outcomes[FullRegression])]
  }

  function Lookup(history: seq<Record>, id: int): Option<Record> {
    if history == [] then None else if history[0].raw.id == id then Some(history[0]) else Lookup(history[1..], id)
  }

  function JobsFor(history: seq<Record>, readable: set<int>, id: int): Result<seq<Job>, Error> {
    var r := Lookup(history, id);
    if r.None? || id !in readable || FullRegression !in r.value.outcomes then Err(HistoryUnavailable) else Ok(JobsOf(r.value))
  }

  function StateFor(history: seq<Record>, readable: set<int>, run: Run): Result<string, Error> {
    var r := Lookup(history, run.id);
    if r.None? || run.id !in readable then Err(HistoryUnavailable) else Ok(r.value.digest)
  }

  /** The history client answers truthfully or not at all. */
  function ClientOf(history: seq<Record>, t: Turn): Client {
    Client(id => JobsFor(history, t.jobsReadable, id), Some(run => StateFor(history, t.statesReadable, run)))
  }

  function RawRuns(history: seq<Record>): seq<RawRun> {
    if history == [] then [] else [history[0].raw] + RawRuns(history[1..])
  }

  /** The selector's decision: an unreadable history means a full run. */
  function DecisionFor(history: seq<Record>, t: Turn): Decision {
    if !t.historyReadable then Unavailable(t.sha, Some(t.digest))
    else match Decide(t.sha, t.id, RawRuns(history), Some(t.digest), ClientOf(history, t))
      case Ok(d) => d
      case Err(_) => Unavailable(t.sha, Some(t.digest))
  }

  /** The next run, newest first in the history. Its conclusion is the gate's verdict. */
  function Next(history: seq<Record>, t: Turn): seq<Record> {
    var d := DecisionFor(history, t);
    var conclusion := if Passes(Some(d), t.outcomes) then Success else t.failure;
    [Record(RawRun(t.id, "schedule", "main", t.path, "completed", conclusion, t.sha, t.attempt),
            t.digest, d, t.outcomes)] + history
  }

  /** Histories the loop can produce, with the turns that produced them, newest first. */
  ghost predicate Reachable(history: seq<Record>, turns: seq<Turn>) {
    if turns == [] then history == []
    else
      && history != []
      && Reachable(history[1..], turns[1..])
      && TurnOk(history[1..], turns[0])
      && history == Next(history[1..], turns[0])
  }

  predicate PassedInFull(r: Record) {
    r.raw.conclusion == Success && r.decision.runFull
  }

  predicate PassedBySkipping(r: Record) {
    r.raw.conclusion == Success && !r.decision.runFull
  }

  // ---- the history is what the selector reads ----

  ghost predicate RecordOk(r: Record) {
    && FullRegression in r.outcomes
    && Concerns(r.raw, 0) && WellFormed(r.raw)
    && (r.raw.conclusion == Success <==> Passes(Some(r.decision), r.outcomes))
  }

  ghost predicate HistoryOk(history: seq<Record>) {
    && (forall i :: 0 <= i < |history| ==> RecordOk(history[i]))
    && (forall i, j :: 0 <= i < j < |history| ==> history[i].raw.id != history[j].raw.id)
  }

  lemma {:induction false} ReachableOk(history: seq<Record>, turns: seq<Turn>)
    requires Reachable(history, turns)
    ensures HistoryOk(history) && |history| == |turns|
  {
    if turns != [] {
      ReachableOk(history[1..], turns[1..]);
      assert RecordOk(history[0]);
      forall i | 0 < i < |history| ensures RecordOk(history[i]) && history[i].raw.id != history[0].raw.id {
        assert history[i] == history[1..][i - 1];
      }
    }
  }

  /** The window of raw runs parses to the newest records, one for one. */
  lemma {:induction false} WindowIsRelevant(history: seq<Record>, current: int, seen: set<int>, n: nat)
    requires n <= |history| && HistoryOk(history)
    requires forall i :: 0 <= i < |history| ==> history[i].raw.id != current && history[i].raw.id !in seen
    ensures |RawRuns(history)| == |history|
    ensures var r := Relevant(RawRuns(history)[..n], current, seen);
            r.Ok? && |r.value| == n && forall i :: 0 <= i < n ==> r.value[i] == Parsed(history[i].raw)
  {
    if history != [] {
      var rest := history[1..];
      if n > 0 {
        assert forall i :: 0 <= i < |rest| ==> rest[i] == history[i + 1];
        WindowIsRelevant(rest, current, seen + {history[0].raw.id}, n - 1);
        assert RawRuns(history)[..n][1..] == RawRuns(rest)[..n - 1];
        assert RecordOk(history[0]);
      } else {
        assert forall i :: 0 <= i < |rest| ==> rest[i] == history[i + 1];
        WindowIsRelevant(rest, current, seen, 0);
      }
    }
  }

  lemma {:induction false} LookupFinds(history: seq<Record>, i: nat)
    requires HistoryOk(history) && i < |history|
    ensures Lookup(history, history[i].raw.id) == Some(history[i])
  {
    if i > 0 {
      assert forall j :: 0 <= j < |history[1..]| ==> history[1..][j] == history[j + 1];
      LookupFinds(history[1..], i - 1);
    }
  }

  /** What the selector sees of a successful record: a success marker if it passed in full, else a skipped one. */
  lemma MarkerOfRecord(history: seq<Record>, t: Turn, i: nat)
    requires HistoryOk(history) && i < |history| && history[i].raw.conclusion == Success
    ensures MarkerOf(ClientOf(history, t), Parsed(history[i].raw))
         == if history[i].raw.id !in t.jobsReadable then Err(HistoryUnavailable)
            else Ok(Some(if history[i].decision.runFull then Success else Skipped))
  {
    var r := history[i];
    LookupFinds(history, i);
    assert RecordOk(r);
    assert FullRegression in Required() && FullRegression in COMPONENTS + [FullRegression];
    var jobs := JobsOf(r);
    assert "selector"[0] != MARKER_NAME[0];
    assert jobs[1..][1..] == [] && Markers(jobs[1..]) == [jobs[1]];
    assert Markers(jobs) == [jobs[1]];
  }

  // ---- what every run keeps ----

  /** The newest `k` records passed by skipping, and the next passed in full at `digest`. */
  ghost predicate Covered(history: seq<Record>, digest: string, k: nat) {
    && k < |history|
    && (forall j :: 0 <= j < k ==> PassedBySkipping(history[j]))
    && PassedInFull(history[k]) && history[k].digest == digest
  }

  /** The selector reads the newest records, at most a hundred, one for one. */
  lemma ReadsWindow(history: seq<Record>, t: Turn)
    requires HistoryOk(history) && TurnOk(history, t)
    ensures var r := Relevant(Window(RawRuns(history)), t.id, {});
            && r.Ok? && |r.value| == |Window(history)|
            && forall i :: 0 <= i < |r.value| ==> r.value[i] == Parsed(history[i].raw)
  {
    assert forall i :: 0 <= i < |history| ==> history[i] in history;
    WindowIsRelevant(history, t.id, {}, |Window(history)|);
    assert Window(RawRuns(history)) == RawRuns(history)[..|Window(history)|];
  }

  lemma SkipDecisionIsCovered(history: seq<Record>, t: Turn) returns (k: nat)
    requires HistoryOk(history) && TurnOk(history, t) && !DecisionFor(history, t).runFull
    ensures k < HISTORY_WINDOW && Covered(history, t.digest, k)
  {
    var client, raws := ClientOf(history, t), RawRuns(history);
    ReadsWindow(history, t);
    var relevant := Relevant(Window(raws), t.id, {}).value;
    SkipIff(t.sha, t.id, raws, Some(t.digest), client);
    k :| CleanAnchor(client, relevant, k) && SameState(t.sha, Some(t.digest), client, relevant[k]);
    CleanAnchorCovers(history, t, relevant, k);
  }

  lemma CleanAnchorCovers(history: seq<Record>, t: Turn, relevant: seq<Run>, k: nat)
    requires HistoryOk(history) && |relevant| <= |history|
    requires forall i :: 0 <= i < |relevant| ==> relevant[i] == Parsed(history[i].raw)
    requires CleanAnchor(ClientOf(history, t), relevant, k)
    requires SameState(t.sha, Some(t.digest), ClientOf(history, t), relevant[k])
    ensures Covered(history, t.digest, k)
  {
    forall j | 0 <= j <= k
      ensures history[j].raw.conclusion == Success && (history[j].decision.runFull <==> j == k)
    {
      assert relevant[j].conclusion == Success;
      MarkerOfRecord(history, t, j);
    }
    LookupFinds(history, k);
  }

  /**
   In every run of the loop a skip has an earlier full pass at the same state, within
   the last hundred runs, with only successful skips between.
   */
  lemma EverySkipIsCovered(history: seq<Record>, turns: seq<Turn>) returns (k: nat)
    requires Reachable(history, turns) && history != [] && !history[0].decision.runFull
    ensures k < HISTORY_WINDOW && Covered(history[1..], history[0].digest, k)
  {
    ReachableOk(history[1..], turns[1..]);
    k := SkipDecisionIsCovered(history[1..], turns[0]);
  }

  /** After a run that did not succeed, runs are full until one passes in full: a later skip has a pass between. */
  lemma FailureForcesFullRuns(history: seq<Record>, turns: seq<Turn>, i: nat) returns (j: nat)
    requires Reachable(history, turns) && 0 < i < |history|
    requires history[i].raw.conclusion != Success && !history[0].decision.runFull
    ensures 0 < j < i && PassedInFull(history[j])
  {
    var k := EverySkipIsCovered(history, turns);
    CoverageStops(history[1..], history[0].digest, k, i - 1);
    j := k + 1;
  }

  lemma CoverageStops(history: seq<Record>, digest: string, k: nat, i: nat)
    requires Covered(history, digest, k) && i < |history| && history[i].raw.conclusion != Success
    ensures k < i
  {
  }

  /** At most a hundred runs in a row skip: the anchor then leaves the window. */
  lemma AtMostHundredSkips(history: seq<Record>, turns: seq<Turn>, n: nat)
    requires Reachable(history, turns) && n <= |history|
    requires forall j :: 0 <= j < n ==> !history[j].decision.runFull
    ensures n <= HISTORY_WINDOW
  {
    if n > 0 {
      var k := EverySkipIsCovered(history, turns);
      assert history[1..][k] == history[k + 1];
    }
  }

  /** Every decision the loop acts on passes the schema check. */
  lemma LoopDecisionsAreValid(history: seq<Record>, t: Turn)
    requires TurnOk(history, t)
    ensures ValidDecision(DecisionFor(history, t))
  {
    DecisionsAreValid(t.sha, t.id, RawRuns(history), Some(t.digest), ClientOf(history, t));
    UnavailableIsValid(t.sha, Some(t.digest));
  }

  /** While the whole window can be read, a covered state is skipped: the bound of a hundred is attained. */
  lemma CoveredStateSkips(history: seq<Record>, t: Turn, k: nat)
    requires HistoryOk(history) && TurnOk(history, t)
    requires k < HISTORY_WINDOW && Covered(history, t.digest, k)
    requires t.historyReadable
    requires forall j :: 0 <= j <= k ==> history[j].raw.id in t.jobsReadable
    requires history[k].raw.id in t.statesReadable
    ensures !DecisionFor(history, t).runFull
  {
    var client, raws := ClientOf(history, t), RawRuns(history);
    ReadsWindow(history, t);
    var relevant := Relevant(Window(raws), t.id, {}).value;
    forall j | 0 <= j <= k
      ensures relevant[j].conclusion == Success
      ensures MarkerOf(client, relevant[j]) == Ok(Some(if j == k then Success else Skipped))
    {
      assert relevant[j] == Parsed(history[j].raw);
      if j < k { assert PassedBySkipping(history[j]); }
      MarkerOfRecord(history, t, j);
    }
    LookupFinds(history, k);
    assert CleanAnchor(client, relevant, k) && SameState(t.sha, Some(t.digest), client, relevant[k]);
    SkipIff(t.sha, t.id, raws, Some(t.digest), client);
  }

  function AllOutcomes(selector: Conclusion, others: Conclusion): map<JobName, Conclusion> {
    map[Selector := selector, Quality := others, Factories := others, Migrations := others, Django := others,
        Playwright := others, Container := others, FullRegression := others]
  }

  lemma FirstRunPasses(t: Turn)
    requires TurnOk([], t) && t.outcomes == AllOutcomes(Success, Success)
    ensures Reachable(Next([], t), [t]) && Covered(Next([], t), t.digest, 0)
  {
    var d := DecisionFor([], t);
    assert RawRuns([]) == [] && Window<RawRun>([]) == [];
    assert d.runFull;
    assert Next([], t)[1..] == [] && [t][1..] == [];
  }

  lemma SkippedJobsPass(d: Decision)
    requires !d.runFull
    ensures Passes(Some(d), AllOutcomes(Success, Skipped))
  {
  }

  lemma CoverageGrows(older: seq<Record>, earlier: seq<Turn>, t: Turn, k: nat)
    requires Reachable(older, earlier) && TurnOk(older, t) && t.outcomes == AllOutcomes(Success, Skipped)
    requires Covered(older, t.digest, k) && !DecisionFor(older, t).runFull
    ensures Reachable(Next(older, t), [t] + earlier) && Covered(Next(older, t), t.digest, k + 1)
  {
    SkippedJobsPass(DecisionFor(older, t));
    var history := Next(older, t);
    assert history[1..] == older && ([t] + earlier)[1..] == earlier && ([t] + earlier)[0] == t;
    forall j | 0 <= j <= k ensures PassedBySkipping(history[j]) {
      if j > 0 { assert history[j] == older[j - 1]; }
    }
    assert history[k + 1] == older[k];
  }

  function IdsOf(history: seq<Record>): set<int> {
    set r | r in history :: r.raw.id
  }

  /** The bound is attained: one full pass, then up to a hundred successful skips of an unchanged state. */
  lemma {:induction false} SkipsAreReached(path: string, sha: string, digest: string, n: nat)
    returns (history: seq<Record>, turns: seq<Turn>)
    requires BeforeAt(path) == WORKFLOW_PATH && ShaOk(sha) && StateOk(digest) && n <= HISTORY_WINDOW
    ensures Reachable(history, turns) && |history| == n + 1 && Covered(history, digest, n)
    ensures forall r :: r in history ==> r.raw.id <= n + 1
  {
    if n == 0 {
      var t := Turn(1, path, sha, 1, digest, AllOutcomes(Success, Success), Failure, true, {}, {});
      FirstRunPasses(t);
      history, turns := Next([], t), [t];
    } else {
      var older, earlier := SkipsAreReached(path, sha, digest, n - 1);
      history, turns := SkipOnceMore(path, sha, digest, n, older, earlier);
    }
  }

  lemma SkipOnceMore(path: string, sha: string, digest: string, n: nat, older: seq<Record>, earlier: seq<Turn>)
    returns (history: seq<Record>, turns: seq<Turn>)
    requires BeforeAt(path) == WORKFLOW_PATH && ShaOk(sha) && StateOk(digest) && 0 < n <= HISTORY_WINDOW
    requires Reachable(older, earlier) && |older| == n && Covered(older, digest, n - 1)
    requires forall r :: r in older ==> r.raw.id <= n
    ensures Reachable(history, turns) && |history| == n + 1 && Covered(history, digest, n)
    ensures forall r :: r in history ==> r.raw.id <= n + 1
  {
    var t := Turn(n + 1, path, sha, 1, digest, AllOutcomes(Success, Skipped), Failure, true, IdsOf(older), IdsOf(older));
    ReachableOk(older, earlier);
    assert forall j :: 0 <= j < |older| ==> older[j] in older;
    CoveredStateSkips(older, t, n - 1);
    CoverageGrows(older, earlier, t, n - 1);
    history, turns := Next(older, t), [t] + earlier;
  }
}
