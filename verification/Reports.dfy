/**
 The report on a verification plan: built from a result directory, and validated.
 */
module Reports {
  import opened Impact
  import opened Verification
  import opened Wrappers
  import E = Evidence

  // `CreateReport` sorts the components into buckets and reaches a verdict. The lemmas say
  // what a success covers and exactly when the report built passes the report validator.

  datatype Phase = CI | Engineer | Tester

  datatype Verdict = Failed | PendingTester | Succeeded

  // ---- the result directory ----

  // What the report asks of stored envelopes in its phase: the component's name, the
  // reference made to an envelope, whether an envelope fits the plan (as a fresh result or
  // as a reused one), whether its origin, artifacts and machine outputs pass, and whether a
  // reference carries the flake-policy counts.
  datatype Desk = Desk(name: Component -> string, refer: E.Envelope -> Reference,
                       fits: (E.Envelope, Component, bool) -> bool, intact: (E.Candidate, Component) -> bool,
                       counted: Reference -> bool)

  /** A reference names the envelope it was made from. */
  ghost predicate IsDesk(k: Desk) {
    forall e {:trigger k.refer(e)} :: k.refer(e).id == e.id
  }

  predicate Passes(k: Desk, s: E.Candidate, c: Component, rerun: bool) {
    k.fits(s.envelope, c, rerun) && k.intact(s, c)
  }

  /** The stored envelopes of a component. */
  function Stored(k: Desk, dir: seq<E.Candidate>, c: Component): (r: seq<E.Candidate>)
    ensures forall s :: s in r <==> s in dir && s.envelope.component == k.name(c)
  {
    if dir == [] then []
    else (if dir[0].envelope.component == k.name(c) then [dir[0]] else []) + Stored(k, dir[1..], c)
  }

  ghost predicate IsLatest(k: Desk, dir: seq<E.Candidate>, c: Component, s: E.Candidate) {
    s in dir && s in Stored(k, dir, c) && E.IsHead(E.Envelopes(Stored(k, dir, c)), s.envelope)
  }

  /** Envelopes of the component are stored, and none of them is the latest. */
  ghost predicate IsAmbiguous(k: Desk, dir: seq<E.Candidate>, c: Component) {
    Stored(k, dir, c) != [] && !exists e :: E.IsHead(E.Envelopes(Stored(k, dir, c)), e)
  }

  // What the directory holds for a component: nothing, a latest envelope that does not
  // fit the plan or fails its checks, or a fitting one.
  datatype Found = Missing | Unfit | Fit(result: E.Outcome, reference: Reference)

  ghost predicate IsFound(k: Desk, dir: seq<E.Candidate>, c: Component, f: Found) {
    match f
    case Missing => Stored(k, dir, c) == []
    case Unfit => exists s :: IsLatest(k, dir, c, s) && !(k.fits(s.envelope, c, true) && k.intact(s, c))
    case Fit(result, reference) =>
      exists s :: IsLatest(k, dir, c, s) && k.fits(s.envelope, c, true) && k.intact(s, c)
                  && result == s.envelope.result && reference == k.refer(s.envelope)
  }

  ghost predicate AllFound(k: Desk, dir: seq<E.Candidate>, found: Component -> Found) {
    forall c :: c in COMPONENTS ==> IsFound(k, dir, c, found(c))
  }

  method FindResult(k: Desk, dir: seq<E.Candidate>, c: Component) returns (f: Option<Found>)
    ensures f.None? <==> IsAmbiguous(k, dir, c)
    ensures f.Some? ==> IsFound(k, dir, c, f.value)
  {
    var choice := E.SelectLatest(Stored(k, dir, c));
    match choice
    case NoEvidence => return Some(Missing);
    case Ambiguous => return None;
    case Chosen(path, envelope) =>
      var s := E.Candidate(path, envelope);
      assert IsLatest(k, dir, c, s);
      return if Passes(k, s, c, true) then Some(Fit(envelope.result, k.refer(envelope))) else Some(Unfit);
  }

  // ---- the report ----

  datatype SkipReason = TesterRequired | PlanMismatch | ResultMissing

  datatype RerunEntry = RerunEntry(component: Component, result: E.Outcome, reference: Reference)
  datatype SkippedEntry = SkippedEntry(component: Component, reason: SkipReason)
  datatype ReusedEntry = ReusedEntry(component: Component, reference: Option<Reference>)

  datatype Report = Report(notApplicable: seq<Component>, rerun: seq<RerunEntry>, reused: seq<ReusedEntry>,
                           skipped: seq<SkippedEntry>, verdict: Verdict)

  function SkipReasonOf(c: Component, phase: Phase, found: Found): SkipReason {
    if c == Screenshots && phase == Engineer then TesterRequired
    else if found == Missing then ResultMissing else PlanMismatch
  }

  function AddComponent(r: Report, c: Component, item: ComponentPlan, phase: Phase, found: Found): Report {
    match item.disposition
    case NotApplicable => r.(notApplicable := r.notApplicable + [c])
    case Reused => r.(reused := r.reused + [ReusedEntry(c, item.evidence)])
    case Rerun =>
      if found.Fit? then
        r.(rerun := r.rerun + [RerunEntry(c, found.result, found.reference)],
           verdict := if found.result != E.Success then Failed else r.verdict)
      else
        var reason := SkipReasonOf(c, phase, found);
        r.(skipped := r.skipped + [SkippedEntry(c, reason)],
           verdict := if reason == TesterRequired && r.verdict != Failed then PendingTester else Failed)
  }

  const EMPTY_REPORT := Report([], [], [], [], Succeeded)

  function ReportOf(plan: Plan, cs: seq<Component>, phase: Phase, found: Component -> Found): Report
    requires forall c :: c in cs ==> c in plan.components
  {
    if cs == [] then EMPTY_REPORT
    else
      var c := cs[|cs| - 1];
      AddComponent(ReportOf(plan, cs[..|cs| - 1], phase, found), c, plan.components[c], phase, found(c))
  }

  function Lookup(results: map<Component, Found>): Component -> Found {
    (c: Component) => if c in results then results[c] else Missing
  }

  /** The latest results of all components, unless one of them has no latest. */
  method FindResults(k: Desk, dir: seq<E.Candidate>) returns (r: Option<map<Component, Found>>)
    ensures r.None? <==> exists c :: c in COMPONENTS && IsAmbiguous(k, dir, c)
    ensures r.Some? ==> AllFound(k, dir, Lookup(r.value))
  {
    var results: map<Component, Found> := map[];
    for i := 0 to |COMPONENTS|
      invariant forall c :: c in COMPONENTS[..i] ==> c in results && IsFound(k, dir, c, results[c]) && !IsAmbiguous(k, dir, c)
    {
      var c := COMPONENTS[i];
      assert COMPONENTS[..i + 1] == COMPONENTS[..i] + [c];
      var f := FindResult(k, dir, c);
      if f.None? {
        return None;
      }
      results := results[c := f.value];
    }
    assert COMPONENTS[..|COMPONENTS|] == COMPONENTS;
    return Some(results);
  }

  /** The report before its validation; nothing when a component's latest result is ambiguous. */
  method CreateReport(plan: Plan, phase: Phase, k: Desk, dir: seq<E.Candidate>) returns (r: Option<Report>)
    requires forall c :: c in COMPONENTS ==> c in plan.components
    ensures r.None? <==> exists c :: c in COMPONENTS && IsAmbiguous(k, dir, c)
    ensures r.Some? ==> exists found :: AllFound(k, dir, found) && r.value == ReportOf(plan, COMPONENTS, phase, found)
  {
    var results := FindResults(k, dir);
    if results.None? {
      return None;
    }
    var report := SortComponents(plan, phase, Lookup(results.value));
    return Some(report);
  }

  /** Every component goes into its bucket, and the verdict follows. */
  method SortComponents(plan: Plan, phase: Phase, found: Component -> Found) returns (r: Report)
    requires forall c :: c in COMPONENTS ==> c in plan.components
    ensures r == ReportOf(plan, COMPONENTS, phase, found)
  {
    var notApplicable: seq<Component>, rerun: seq<RerunEntry> := [], [];
    var reused: seq<ReusedEntry>, skipped: seq<SkippedEntry>, verdict := [], [], Succeeded;
    for i := 0 to |COMPONENTS|
      invariant Report(notApplicable, rerun, reused, skipped, verdict) == ReportOf(plan, COMPONENTS[..i], phase, found)
    {
      var c := COMPONENTS[i];
      assert COMPONENTS[..i + 1][..i] == COMPONENTS[..i];
      var item := plan.components[c];
      match item.disposition {
        case NotApplicable => notApplicable := notApplicable + [c];
        case Reused => reused := reused + [ReusedEntry(c, item.evidence)];
        case Rerun =>
          if found(c).Fit? {
            if found(c).result != E.Success {
              verdict := Failed;
            }
            rerun := rerun + [RerunEntry(c, found(c).result, found(c).reference)];
          } else if c == Screenshots && phase == Engineer {
            skipped := skipped + [SkippedEntry(c, TesterRequired)];
            if verdict != Failed {
              verdict := PendingTester;
            }
          } else {
            skipped := skipped + [SkippedEntry(c, if found(c) == Missing then ResultMissing else PlanMismatch)];
            verdict := Failed;
          }
      }
    }
    assert COMPONENTS[..|COMPONENTS|] == COMPONENTS;
    r := Report(notApplicable, rerun, reused, skipped, verdict);
  }

  // ---- what the validator recomputes ----

  predicate FailingRerun(r: Report) {
    exists e :: e in r.rerun && e.result != E.Success
  }

  predicate Pending(r: Report) {
    exists e :: e in r.skipped && e.component == Screenshots && e.reason == TesterRequired
  }

  predicate IsPending(e: SkippedEntry) {
    e.component == Screenshots && e.reason == TesterRequired
  }

  predicate BlockingSkip(plan: Plan, r: Report) {
    exists e :: e in r.skipped && e.component in plan.components && plan.components[e.component].required && !IsPending(e)
  }

  function ExpectedVerdict(plan: Plan, r: Report): Verdict {
    if FailingRerun(r) || BlockingSkip(plan, r) then Failed else if Pending(r) then PendingTester else Succeeded
  }

  /** A result is missing for a component the plan reruns without requiring it. */
  ghost predicate UnrequiredSkip(plan: Plan, r: Report) {
    exists e :: e in r.skipped && e.component in plan.components && !plan.components[e.component].required && !IsPending(e)
  }

  /** What the accumulated verdict says about the buckets so far. */
  ghost predicate VerdictFits(r: Report) {
    && (r.verdict == Failed <==> FailingRerun(r) || exists e :: e in r.skipped && !IsPending(e))
    && (r.verdict == PendingTester ==> Pending(r))
    && (r.verdict == Succeeded ==> !Pending(r))
    && (forall e :: e in r.skipped && e.reason == TesterRequired ==> e.component == Screenshots)
  }

  lemma AddFits(r: Report, c: Component, item: ComponentPlan, phase: Phase, found: Found)
    requires VerdictFits(r)
    ensures VerdictFits(AddComponent(r, c, item, phase, found))
  {
    var r' := AddComponent(r, c, item, phase, found);
    assert forall e :: e in r.rerun ==> e in r'.rerun;
    assert forall e :: e in r.skipped ==> e in r'.skipped;
    if item.disposition == Rerun {
      if found.Fit? {
        assert RerunEntry(c, found.result, found.reference) in r'.rerun;
      } else {
        assert SkippedEntry(c, SkipReasonOf(c, phase, found)) in r'.skipped;
      }
    }
  }

  lemma {:induction false} ReportFits(plan: Plan, cs: seq<Component>, phase: Phase, found: Component -> Found)
    requires forall c :: c in cs ==> c in plan.components
    ensures VerdictFits(ReportOf(plan, cs, phase, found))
    ensures forall e :: e in ReportOf(plan, cs, phase, found).skipped ==> e.component in cs
  {
    if cs != [] {
      var older, c := cs[..|cs| - 1], cs[|cs| - 1];
      ReportFits(plan, older, phase, found);
      AddFits(ReportOf(plan, older, phase, found), c, plan.components[c], phase, found(c));
      assert forall d :: d in cs <==> d in older || d == c;
    }
  }

  /** Where a component went. */
  predicate InBucket(r: Report, c: Component, d: Disposition) {
    match d
    case NotApplicable => c in r.notApplicable
    case Reused => exists e :: e in r.reused && e.component == c
    case Rerun => (exists e :: e in r.rerun && e.component == c) || (exists e :: e in r.skipped && e.component == c)
  }

  /** Why a component that was to run fresh has no result: its tester is still to come, or nothing is stored, or what is does not fit. */
  ghost predicate IsSkipReason(c: Component, phase: Phase, found: Found, reason: SkipReason) {
    match reason
    case TesterRequired => !found.Fit? && c == Screenshots && phase == Engineer
    case ResultMissing => found == Missing && !(c == Screenshots && phase == Engineer)
    case PlanMismatch => found == Unfit && !(c == Screenshots && phase == Engineer)
  }

  /** What the report says of a component follows from its plan and its result. */
  ghost predicate Accounted(plan: Plan, r: Report, c: Component, phase: Phase, found: Found)
    requires c in plan.components
  {
    var item := plan.components[c];
    && (c in r.notApplicable <==> item.disposition == NotApplicable)
    && (forall e :: e in r.reused && e.component == c ==> item.disposition == Reused && e.reference == item.evidence)
    && (forall e :: e in r.rerun && e.component == c ==> item.disposition == Rerun && found == Fit(e.result, e.reference))
    && (forall e :: e in r.skipped && e.component == c ==> item.disposition == Rerun && IsSkipReason(c, phase, found, e.reason))
    && InBucket(r, c, item.disposition)
  }

  ghost predicate Absent(r: Report, c: Component) {
    !InBucket(r, c, NotApplicable) && !InBucket(r, c, Reused) && !InBucket(r, c, Rerun)
  }

  /** Every component is in exactly the bucket its plan calls for, with its own evidence. */
  lemma {:induction false} ReportAccounts(plan: Plan, cs: seq<Component>, phase: Phase, found: Component -> Found, c: Component)
    requires forall d :: d in cs ==> d in plan.components
    requires forall i, j :: 0 <= i < j < |cs| ==> cs[i] != cs[j]
    ensures c in cs ==> Accounted(plan, ReportOf(plan, cs, phase, found), c, phase, found(c))
    ensures c !in cs ==> Absent(ReportOf(plan, cs, phase, found), c)
  {
    if cs != [] {
      var older, d := cs[..|cs| - 1], cs[|cs| - 1];
      ReportAccounts(plan, older, phase, found, c);
      assert forall x :: x in cs <==> x in older || x == d;
      var r := ReportOf(plan, older, phase, found);
      if c == d {
        assert c !in older;
        AccountedNow(plan, r, c, phase, found(c));
      } else {
        OthersUntouched(plan, r, d, phase, found(d), c);
        if c in older { AccountedStays(plan, r, AddComponent(r, d, plan.components[d], phase, found(d)), c, phase, found(c)); }
      }
    }
  }

  lemma AccountedNow(plan: Plan, r: Report, c: Component, phase: Phase, found: Found)
    requires c in plan.components && Absent(r, c)
    ensures Accounted(plan, AddComponent(r, c, plan.components[c], phase, found), c, phase, found)
  {
    var r' := AddComponent(r, c, plan.components[c], phase, found);
    match plan.components[c].disposition
    case NotApplicable => assert r'.notApplicable[|r.notApplicable|] == c;
    case Reused => assert r'.reused[|r.reused|].component == c;
    case Rerun => assert if found.Fit? then r'.rerun[|r.rerun|].component == c else r'.skipped[|r.skipped|].component == c;
  }

  /** The entries about `c` are the same in both reports. */
  ghost predicate SameEntries(r: Report, r': Report, c: Component) {
    && (c in r.notApplicable <==> c in r'.notApplicable)
    && (forall e: RerunEntry :: e.component == c ==> (e in r.rerun <==> e in r'.rerun))
    && (forall e: ReusedEntry :: e.component == c ==> (e in r.reused <==> e in r'.reused))
    && (forall e: SkippedEntry :: e.component == c ==> (e in r.skipped <==> e in r'.skipped))
  }

  lemma OthersUntouched(plan: Plan, r: Report, d: Component, phase: Phase, found: Found, c: Component)
    requires d in plan.components && c != d
    ensures SameEntries(r, AddComponent(r, d, plan.components[d], phase, found), c)
    ensures Absent(r, c) ==> Absent(AddComponent(r, d, plan.components[d], phase, found), c)
  {
  }

  lemma AccountedStays(plan: Plan, r: Report, r': Report, c: Component, phase: Phase, found: Found)
    requires c in plan.components && SameEntries(r, r', c) && Accounted(plan, r, c, phase, found)
    ensures Accounted(plan, r', c, phase, found)
  {
  }

  /** The component has a fitting successful fresh result, or is reused with the very evidence the plan names. */
  ghost predicate IsCovered(plan: Plan, r: Report, c: Component, found: Found)
    requires c in plan.components
  {
    match plan.components[c].disposition
    case Rerun => found.Fit? && found.result == E.Success && RerunEntry(c, E.Success, found.reference) in r.rerun
    case Reused => plan.components[c].evidence.Some? && ReusedEntry(c, plan.components[c].evidence) in r.reused
    case NotApplicable => false
  }

  lemma CoveredEntry(plan: Plan, r: Report, c: Component, phase: Phase, found: Found)
    requires c in plan.components && plan.components[c].required && ComponentOk(plan.components[c])
    requires Accounted(plan, r, c, phase, found) && VerdictFits(r) && r.verdict == Succeeded
    ensures IsCovered(plan, r, c, found)
  {
    assert !Pending(r) && forall e :: e in r.skipped ==> IsPending(e);
  }

  /** A successful report covers every component the plan requires. */
  lemma SuccessMeansCovered(plan: Plan, phase: Phase, found: Component -> Found, c: Component)
    requires PlanOk(plan) && ReportOf(plan, COMPONENTS, phase, found).verdict == Succeeded
    requires c in plan.components && plan.components[c].required
    ensures IsCovered(plan, ReportOf(plan, COMPONENTS, phase, found), c, found(c))
  {
    AllComponents(c);
    ReportAccounts(plan, COMPONENTS, phase, found, c);
    ReportFits(plan, COMPONENTS, phase, found);
    CoveredEntry(plan, ReportOf(plan, COMPONENTS, phase, found), c, phase, found(c));
  }

  // ---- verdicts ----

  /** A rerun component has no fitting result and is not the screenshots an engineer leaves to a tester. */
  predicate IsUnfinished(plan: Plan, phase: Phase, found: Component -> Found, c: Component)
    requires c in plan.components
  {
    plan.components[c].disposition == Rerun && !found(c).Fit? && !(c == Screenshots && phase == Engineer)
  }

  predicate FailsFresh(plan: Plan, found: Component -> Found, c: Component)
    requires c in plan.components
  {
    plan.components[c].disposition == Rerun && found(c).Fit? && found(c).result != E.Success
  }

  ghost predicate HasAll(plan: Plan) {
    forall c: Component :: c in plan.components
  }

  /** If something unrequired is unfinished, something required is too, or a fresh result failed. */
  ghost predicate VerdictStands(plan: Plan, phase: Phase, found: Component -> Found)
    requires HasAll(plan)
  {
    (exists c :: IsUnfinished(plan, phase, found, c) && !plan.components[c].required) ==>
      (exists c :: (IsUnfinished(plan, phase, found, c) && plan.components[c].required) || FailsFresh(plan, found, c))
  }

  ghost predicate SkipsUnfinished(r: Report, c: Component) {
    exists e :: e in r.skipped && e.component == c && !IsPending(e)
  }

  ghost predicate HoldsFailure(r: Report, c: Component) {
    exists e :: e in r.rerun && e.component == c && e.result != E.Success
  }

  /** What the validator asks of the buckets, component by component. */
  lemma ByComponent(plan: Plan, r: Report)
    requires HasAll(plan)
    ensures FailingRerun(r) <==> exists c :: HoldsFailure(r, c)
    ensures BlockingSkip(plan, r) <==> exists c :: SkipsUnfinished(r, c) && plan.components[c].required
    ensures UnrequiredSkip(plan, r) <==> exists c :: SkipsUnfinished(r, c) && !plan.components[c].required
  {
    if e :| e in r.rerun && e.result != E.Success { assert HoldsFailure(r, e.component); }
    forall e | e in r.skipped && !IsPending(e) ensures SkipsUnfinished(r, e.component) {}
  }

  lemma SkippedIff(plan: Plan, phase: Phase, found: Component -> Found, c: Component)
    requires HasAll(plan)
    ensures SkipsUnfinished(ReportOf(plan, COMPONENTS, phase, found), c) <==> IsUnfinished(plan, phase, found, c)
    ensures HoldsFailure(ReportOf(plan, COMPONENTS, phase, found), c) <==> FailsFresh(plan, found, c)
  {
    AllComponents(c);
    ReportAccounts(plan, COMPONENTS, phase, found, c);
    AccountedTells(plan, ReportOf(plan, COMPONENTS, phase, found), phase, found, c);
  }

  lemma AccountedTells(plan: Plan, r: Report, phase: Phase, found: Component -> Found, c: Component)
    requires HasAll(plan) && Accounted(plan, r, c, phase, found(c))
    ensures SkipsUnfinished(r, c) <==> IsUnfinished(plan, phase, found, c)
    ensures HoldsFailure(r, c) <==> FailsFresh(plan, found, c)
  {
    if plan.components[c].disposition == Rerun {
      if e :| e in r.rerun && e.component == c {
        assert found(c).Fit?;
      } else {
        var e :| e in r.skipped && e.component == c;
        assert IsSkipReason(c, phase, found(c), e.reason);
      }
    }
  }

  lemma BucketsTell(plan: Plan, phase: Phase, found: Component -> Found)
    requires HasAll(plan)
    ensures var r := ReportOf(plan, COMPONENTS, phase, found);
            && (FailingRerun(r) <==> exists c :: FailsFresh(plan, found, c))
            && (BlockingSkip(plan, r) <==> exists c :: IsUnfinished(plan, phase, found, c) && plan.components[c].required)
            && (UnrequiredSkip(plan, r) <==> exists c :: IsUnfinished(plan, phase, found, c) && !plan.components[c].required)
  {
    var r := ReportOf(plan, COMPONENTS, phase, found);
    ByComponent(plan, r);
    forall c
      ensures SkipsUnfinished(r, c) <==> IsUnfinished(plan, phase, found, c)
      ensures HoldsFailure(r, c) <==> FailsFresh(plan, found, c)
    {
      SkippedIff(plan, phase, found, c);
    }
  }

  /**
   The verdict reached while the report is built is the one the validator recomputes from
   the buckets, unless all that stands in the way is an unfinished component that the plan
   reruns without requiring it.
   */
  lemma VerdictsAgreeIff(plan: Plan, phase: Phase, found: Component -> Found)
    requires HasAll(plan)
    ensures var r := ReportOf(plan, COMPONENTS, phase, found);
            r.verdict == ExpectedVerdict(plan, r) <==> VerdictStands(plan, phase, found)
  {
    ReportFits(plan, COMPONENTS, phase, found);
    BucketsTell(plan, phase, found);
    var r := ReportOf(plan, COMPONENTS, phase, found);
    if e :| e in r.skipped && !IsPending(e) { assert BlockingSkip(plan, r) || UnrequiredSkip(plan, r); }
  }

  const UNREQUIRED_PLAN: Plan :=
    Plan(FocusedProfile, SingleApplication, Smoke, false, [],
         map c: Component | c in {Container, Django, EvidenceValidation, Playwright, Quality, Screenshots, Selector}
           :: ComponentPlan(if c == Playwright then Rerun else NotApplicable, false, None))

  /** Such a plan passes the plan validator, and with an empty result directory the verdicts differ. */
  lemma UnrequiredRerunDisagrees(phase: Phase)
    ensures PlanOk(UNREQUIRED_PLAN) && HasAll(UNREQUIRED_PLAN)
    ensures var found := (c: Component) => Missing;
            var r := ReportOf(UNREQUIRED_PLAN, COMPONENTS, phase, found);
            r.verdict != ExpectedVerdict(UNREQUIRED_PLAN, r)
  {
    var plan, found := UNREQUIRED_PLAN, (c: Component) => Missing;
    forall c: Component ensures c in COMPONENTS && c in plan.components { AllComponents(c); }
    VerdictsAgreeIff(plan, phase, found);
    assert IsUnfinished(plan, phase, found, Playwright) && !plan.components[Playwright].required;
  }

  /** A plan that reruns only what it requires always stands. */
  lemma RequiredRerunsStand(plan: Plan, phase: Phase, found: Component -> Found)
    requires HasAll(plan) && forall c :: c in plan.components && plan.components[c].disposition == Rerun ==> plan.components[c].required
    ensures VerdictStands(plan, phase, found)
  {
  }

  // ---- the report validator ----

  /** `dir[i]` is the only stored envelope with this identity. */
  predicate StoredOnce(dir: seq<E.Candidate>, id: string, i: int) {
    0 <= i < |dir| && dir[i].envelope.id == id && forall j :: 0 <= j < |dir| && dir[j].envelope.id == id ==> j == i
  }

  /** Exactly one stored envelope has the reference's identity; it fits, passes its checks, and is what the reference says. */
  predicate EntryPasses(k: Desk, dir: seq<E.Candidate>, c: Component, reference: Reference, rerun: bool) {
    exists i :: 0 <= i < |dir| && StoredOnce(dir, reference.id, i) && Passes(k, dir[i], c, rerun) && k.refer(dir[i].envelope) == reference
  }

  /** The evidence of every entry is stored as the entry says. */
  predicate EntriesPass(k: Desk, dir: seq<E.Candidate>, r: Report) {
    && (forall e :: e in r.rerun ==> EntryPasses(k, dir, e.component, e.reference, true))
    && (forall e :: e in r.reused ==> e.reference.Some? && EntryPasses(k, dir, e.component, e.reference.value, false))
  }

  /** Playwright evidence that counts as a success carries the flake-policy counts. */
  predicate PlaywrightIsCounted(k: Desk, r: Report) {
    && (forall e :: e in r.rerun && e.component == Playwright && e.result == E.Success ==> k.counted(e.reference))
    && (forall e :: e in r.reused && e.component == Playwright && e.reference.Some? ==> k.counted(e.reference.value))
  }

  /** The bucket of a component agrees with its disposition. */
  predicate BucketOk(plan: Plan, r: Report, c: Component) {
    c in plan.components && InBucket(r, c, plan.components[c].disposition)
    && forall d :: InBucket(r, c, d) ==> d == plan.components[c].disposition
  }

  /** A required component without evidence fails the report, unless its tester is still to come. */
  predicate SkipsAreExplained(plan: Plan, r: Report, phase: Phase) {
    forall e :: e in r.skipped && e.component in plan.components && plan.components[e.component].required ==>
      r.verdict == Failed || (phase == Engineer && IsPending(e))
  }

  /** The cross-field checks of the report validator. */
  predicate ReportOk(plan: Plan, r: Report, phase: Phase, k: Desk, dir: seq<E.Candidate>) {
    && (forall c :: c in COMPONENTS ==> BucketOk(plan, r, c))
    && EntriesPass(k, dir, r)
    && PlaywrightIsCounted(k, r)
    && SkipsAreExplained(plan, r, phase)
    && (r.verdict == PendingTester ==> phase == Engineer)
    && r.verdict == ExpectedVerdict(plan, r)
  }

  // ---- what the validator asks ----

  /** The reference's identity is stored once, there it fits and is intact, and the reference is made from it. */
  ghost predicate IsStoredAs(k: Desk, dir: seq<E.Candidate>, c: Component, reference: Reference, rerun: bool) {
    exists i :: && 0 <= i < |dir| && dir[i].envelope.id == reference.id
                && (forall j :: 0 <= j < |dir| && j != i ==> dir[j].envelope.id != reference.id)
                && k.fits(dir[i].envelope, c, rerun) && k.intact(dir[i], c) && k.refer(dir[i].envelope) == reference
  }

  /** Every component is where its disposition puts it, and nowhere else. */
  ghost predicate IsSorted(plan: Plan, r: Report)
    requires HasAll(plan)
  {
    forall c: Component ::
      && (c in r.notApplicable <==> plan.components[c].disposition == NotApplicable)
      && ((exists e :: e in r.reused && e.component == c) <==> plan.components[c].disposition == Reused)
      && ((exists e :: e in r.rerun && e.component == c) || (exists e :: e in r.skipped && e.component == c)
          <==> plan.components[c].disposition == Rerun)
  }

  ghost predicate AwaitsTester(e: SkippedEntry) {
    e == SkippedEntry(Screenshots, TesterRequired)
  }

  /** A failed result, or a required component without one that no tester is awaited for. */
  ghost predicate MustFail(plan: Plan, r: Report)
    requires HasAll(plan)
  {
    || (exists e :: e in r.rerun && e.result != E.Success)
    || exists e :: e in r.skipped && plan.components[e.component].required && !AwaitsTester(e)
  }

  lemma StoredAsIff(k: Desk, dir: seq<E.Candidate>, c: Component, reference: Reference, rerun: bool)
    ensures EntryPasses(k, dir, c, reference, rerun) <==> IsStoredAs(k, dir, c, reference, rerun)
  {
    if IsStoredAs(k, dir, c, reference, rerun) {
      var i :| && 0 <= i < |dir| && dir[i].envelope.id == reference.id
               && (forall j :: 0 <= j < |dir| && j != i ==> dir[j].envelope.id != reference.id)
               && k.fits(dir[i].envelope, c, rerun) && k.intact(dir[i], c) && k.refer(dir[i].envelope) == reference;
      assert StoredOnce(dir, reference.id, i);
    }
  }

  lemma SortedIff(plan: Plan, r: Report)
    requires HasAll(plan)
    ensures (forall c :: c in COMPONENTS ==> BucketOk(plan, r, c)) <==> IsSorted(plan, r)
  {
    forall c: Component ensures c in COMPONENTS { AllComponents(c); }
    forall c: Component ensures BucketOk(plan, r, c) <==>
        && (c in r.notApplicable <==> plan.components[c].disposition == NotApplicable)
        && ((exists e :: e in r.reused && e.component == c) <==> plan.components[c].disposition == Reused)
        && ((exists e :: e in r.rerun && e.component == c) || (exists e :: e in r.skipped && e.component == c)
            <==> plan.components[c].disposition == Rerun)
    {
      BucketIff(plan, r, c);
    }
  }

  lemma BucketIff(plan: Plan, r: Report, c: Component)
    requires HasAll(plan)
    ensures BucketOk(plan, r, c) <==>
        && (c in r.notApplicable <==> plan.components[c].disposition == NotApplicable)
        && ((exists e :: e in r.reused && e.component == c) <==> plan.components[c].disposition == Reused)
        && ((exists e :: e in r.rerun && e.component == c) || (exists e :: e in r.skipped && e.component == c)
            <==> plan.components[c].disposition == Rerun)
  {
    assert InBucket(r, c, NotApplicable) <==> c in r.notApplicable;
    assert InBucket(r, c, Reused) <==> exists e :: e in r.reused && e.component == c;
    assert InBucket(r, c, Rerun) <==> (exists e :: e in r.rerun && e.component == c) || (exists e :: e in r.skipped && e.component == c);
    if BucketOk(plan, r, c) {
      forall d: Disposition ensures InBucket(r, c, d) <==> d == plan.components[c].disposition {}
    }
  }

  lemma VerdictIff(plan: Plan, r: Report, phase: Phase)
    requires HasAll(plan)
    ensures SkipsAreExplained(plan, r, phase) && (r.verdict == PendingTester ==> phase == Engineer) && r.verdict == ExpectedVerdict(plan, r)
       <==> && (r.verdict == Failed <==> MustFail(plan, r))
            && (r.verdict == Succeeded <==> !MustFail(plan, r) && forall e :: e in r.skipped ==> !AwaitsTester(e))
            && (r.verdict == PendingTester ==> phase == Engineer)
  {
    forall e: SkippedEntry ensures IsPending(e) <==> AwaitsTester(e) {}
    assert FailingRerun(r) || BlockingSkip(plan, r) <==> MustFail(plan, r);
    assert Pending(r) <==> exists e :: e in r.skipped && AwaitsTester(e);
  }

  /**
   The reports that the validator accepts: every component is in its bucket, all evidence is stored as its entry says,
   playwright successes are counted, and the verdict is the one the entries call for.
   */
  lemma ReportOkIff(plan: Plan, r: Report, phase: Phase, k: Desk, dir: seq<E.Candidate>)
    requires HasAll(plan)
    ensures ReportOk(plan, r, phase, k, dir)
       <==> && IsSorted(plan, r)
            && (forall e :: e in r.rerun ==> IsStoredAs(k, dir, e.component, e.reference, true))
            && (forall e :: e in r.reused ==> e.reference.Some? && IsStoredAs(k, dir, e.component, e.reference.value, false))
            && (forall e :: e in r.rerun && e.component == Playwright && e.result == E.Success ==> k.counted(e.reference))
            && (forall e :: e in r.reused && e.component == Playwright && e.reference.Some? ==> k.counted(e.reference.value))
            && (r.verdict == Failed <==> MustFail(plan, r))
            && (r.verdict == Succeeded <==> !MustFail(plan, r) && forall e :: e in r.skipped ==> !AwaitsTester(e))
            && (r.verdict == PendingTester ==> phase == Engineer)
  {
    SortedIff(plan, r);
    VerdictIff(plan, r, phase);
    EvidenceIff(r, k, dir);
  }

  lemma EvidenceIff(r: Report, k: Desk, dir: seq<E.Candidate>)
    ensures EntriesPass(k, dir, r)
       <==> && (forall e :: e in r.rerun ==> IsStoredAs(k, dir, e.component, e.reference, true))
            && (forall e :: e in r.reused ==> e.reference.Some? && IsStoredAs(k, dir, e.component, e.reference.value, false))
  {
    forall e: RerunEntry ensures EntryPasses(k, dir, e.component, e.reference, true) <==> IsStoredAs(k, dir, e.component, e.reference, true) {
      StoredAsIff(k, dir, e.component, e.reference, true);
    }
    forall e: ReusedEntry | e.reference.Some?
      ensures EntryPasses(k, dir, e.component, e.reference.value, false) <==> IsStoredAs(k, dir, e.component, e.reference.value, false)
    {
      StoredAsIff(k, dir, e.component, e.reference.value, false);
    }
  }

  lemma {:induction false} PendingNeedsEngineer(plan: Plan, cs: seq<Component>, phase: Phase, found: Component -> Found)
    requires forall c :: c in cs ==> c in plan.components
    ensures ReportOf(plan, cs, phase, found).verdict == PendingTester ==> phase == Engineer
    ensures forall e :: e in ReportOf(plan, cs, phase, found).skipped && IsPending(e) ==> phase == Engineer
  {
    if cs != [] { PendingNeedsEngineer(plan, cs[..|cs| - 1], phase, found); }
  }

  /** What the result directory must hold for one component. */
  ghost predicate EvidenceStands(k: Desk, dir: seq<E.Candidate>, c: Component, item: ComponentPlan, f: Found) {
    match item.disposition
    case NotApplicable => true
    case Reused =>
      item.evidence.Some? && EntryPasses(k, dir, c, item.evidence.value, false) && (c == Playwright ==> k.counted(item.evidence.value))
    case Rerun =>
      f.Fit? ==> && (exists i :: StoredOnce(dir, f.reference.id, i))
                 && (c == Playwright && f.result == E.Success ==> k.counted(f.reference))
  }

  /** A fitting fresh result passes the validator as soon as no other envelope has its identity. */
  lemma FitPassesIff(k: Desk, dir: seq<E.Candidate>, c: Component, f: Found)
    requires IsDesk(k) && IsFound(k, dir, c, f) && f.Fit?
    ensures EntryPasses(k, dir, c, f.reference, true) <==> exists i :: StoredOnce(dir, f.reference.id, i)
  {
    var s :| IsLatest(k, dir, c, s) && Passes(k, s, c, true) && f.result == s.envelope.result && f.reference == k.refer(s.envelope);
    if i :| StoredOnce(dir, f.reference.id, i) {
      var j :| 0 <= j < |dir| && dir[j] == s;
      assert dir[j].envelope.id == f.reference.id;
    }
  }

  /** The entries of one component have their evidence stored and counted. */
  ghost predicate ComponentPasses(k: Desk, dir: seq<E.Candidate>, r: Report, c: Component) {
    && (forall e :: e in r.rerun && e.component == c ==>
          EntryPasses(k, dir, c, e.reference, true) && (c == Playwright && e.result == E.Success ==> k.counted(e.reference)))
    && (forall e :: e in r.reused && e.component == c ==>
          e.reference.Some? && EntryPasses(k, dir, c, e.reference.value, false) && (c == Playwright ==> k.counted(e.reference.value)))
  }

  lemma EntriesByComponent(k: Desk, dir: seq<E.Candidate>, r: Report)
    ensures EntriesPass(k, dir, r) && PlaywrightIsCounted(k, r) <==> forall c :: ComponentPasses(k, dir, r, c)
  {
    if forall c :: ComponentPasses(k, dir, r, c) {
      forall e | e in r.rerun
        ensures EntryPasses(k, dir, e.component, e.reference, true)
        ensures e.component == Playwright && e.result == E.Success ==> k.counted(e.reference)
      {
        assert ComponentPasses(k, dir, r, e.component);
      }
      forall e | e in r.reused
        ensures e.reference.Some? && EntryPasses(k, dir, e.component, e.reference.value, false)
        ensures e.component == Playwright ==> k.counted(e.reference.value)
      {
        assert ComponentPasses(k, dir, r, e.component);
      }
    }
  }

  /** The entries of one component pass exactly when its evidence stands. */
  lemma ComponentPassesIff(plan: Plan, r: Report, phase: Phase, k: Desk, dir: seq<E.Candidate>, c: Component, f: Found)
    requires c in plan.components && ComponentOk(plan.components[c]) && Accounted(plan, r, c, phase, f)
    requires f.Fit? ==> (EntryPasses(k, dir, c, f.reference, true) <==> exists i :: StoredOnce(dir, f.reference.id, i))
    ensures ComponentPasses(k, dir, r, c) <==> EvidenceStands(k, dir, c, plan.components[c], f)
  {
    match plan.components[c].disposition
    case NotApplicable => NothingToPass(plan, r, phase, k, dir, c, f);
    case Reused => ReusedPassesIff(plan, r, phase, k, dir, c, f);
    case Rerun => if f.Fit? { RerunPassesIff(plan, r, phase, k, dir, c, f); } else { NothingToPass(plan, r, phase, k, dir, c, f); }
  }

  lemma NothingToPass(plan: Plan, r: Report, phase: Phase, k: Desk, dir: seq<E.Candidate>, c: Component, f: Found)
    requires c in plan.components && Accounted(plan, r, c, phase, f)
    requires plan.components[c].disposition == NotApplicable || (plan.components[c].disposition == Rerun && !f.Fit?)
    ensures ComponentPasses(k, dir, r, c)
  {
  }

  lemma ReusedPassesIff(plan: Plan, r: Report, phase: Phase, k: Desk, dir: seq<E.Candidate>, c: Component, f: Found)
    requires c in plan.components && Accounted(plan, r, c, phase, f) && plan.components[c].disposition == Reused
    ensures var evidence := plan.components[c].evidence;
            ComponentPasses(k, dir, r, c)
            <==> evidence.Some? && EntryPasses(k, dir, c, evidence.value, false) && (c == Playwright ==> k.counted(evidence.value))
  {
    var e :| e in r.reused && e.component == c;
    assert e.reference == plan.components[c].evidence;
  }

  lemma RerunPassesIff(plan: Plan, r: Report, phase: Phase, k: Desk, dir: seq<E.Candidate>, c: Component, f: Found)
    requires c in plan.components && Accounted(plan, r, c, phase, f) && plan.components[c].disposition == Rerun && f.Fit?
    ensures ComponentPasses(k, dir, r, c)
        <==> EntryPasses(k, dir, c, f.reference, true) && (c == Playwright && f.result == E.Success ==> k.counted(f.reference))
  {
    var e :| e in r.rerun && e.component == c;
    assert e.reference == f.reference && e.result == f.result;
  }

  lemma EvidencePassesIff(plan: Plan, phase: Phase, found: Component -> Found, k: Desk, dir: seq<E.Candidate>)
    requires PlanOk(plan) && IsDesk(k) && AllFound(k, dir, found)
    ensures var r := ReportOf(plan, COMPONENTS, phase, found);
            EntriesPass(k, dir, r) && PlaywrightIsCounted(k, r)
            <==> forall c :: c in COMPONENTS ==> EvidenceStands(k, dir, c, plan.components[c], found(c))
  {
    EntriesByComponent(k, dir, ReportOf(plan, COMPONENTS, phase, found));
    forall c: Component
      ensures c in COMPONENTS
      ensures ComponentPasses(k, dir, ReportOf(plan, COMPONENTS, phase, found), c)
              <==> EvidenceStands(k, dir, c, plan.components[c], found(c))
    {
      AllComponents(c);
      ComponentStands(plan, phase, found, k, dir, c);
    }
  }

  lemma ComponentStands(plan: Plan, phase: Phase, found: Component -> Found, k: Desk, dir: seq<E.Candidate>, c: Component)
    requires PlanOk(plan) && IsDesk(k) && c in COMPONENTS && IsFound(k, dir, c, found(c))
    ensures ComponentPasses(k, dir, ReportOf(plan, COMPONENTS, phase, found), c)
        <==> EvidenceStands(k, dir, c, plan.components[c], found(c))
  {
    ReportAccounts(plan, COMPONENTS, phase, found, c);
    if found(c).Fit? { FitPassesIff(k, dir, c, found(c)); }
    ComponentPassesIff(plan, ReportOf(plan, COMPONENTS, phase, found), phase, k, dir, c, found(c));
  }

  ghost predicate AllStand(plan: Plan, k: Desk, dir: seq<E.Candidate>, found: Component -> Found)
    requires HasAll(plan)
  {
    forall c :: c in COMPONENTS ==> EvidenceStands(k, dir, c, plan.components[c], found(c))
  }

  /**
   For every accepted plan and every result directory, the report built passes the report
   validator if and only if the verdicts agree and the evidence of every component stands:
   reused evidence is stored once, passes its checks again and is what the plan refers to,
   and no second envelope carries the identity of a fresh result.
   */
  lemma CreatedReportPassesIff(plan: Plan, phase: Phase, found: Component -> Found, k: Desk, dir: seq<E.Candidate>)
    requires PlanOk(plan) && HasAll(plan) && IsDesk(k) && AllFound(k, dir, found)
    ensures ReportOk(plan, ReportOf(plan, COMPONENTS, phase, found), phase, k, dir)
        <==> && VerdictStands(plan, phase, found)
             && AllStand(plan, k, dir, found)
  {
    BucketsAgree(plan, phase, found);
    CreatedSkipsAreExplained(plan, phase, found);
    PendingNeedsEngineer(plan, COMPONENTS, phase, found);
    VerdictsAgreeIff(plan, phase, found);
    EvidencePassesIff(plan, phase, found, k, dir);
  }

  ghost predicate AnyAmbiguous(k: Desk, dir: seq<E.Candidate>) {
    exists c :: c in COMPONENTS && IsAmbiguous(k, dir, c)
  }

  /**
   The validated report on an accepted plan. There is one when every component's latest result can be told,
   the verdicts agree and the evidence of every component stands; when there is none one of these fails.
   */
  method ReportOnPlan(plan: Plan, phase: Phase, k: Desk, dir: seq<E.Candidate>) returns (r: Option<Report>)
    requires PlanOk(plan) && HasAll(plan) && IsDesk(k)
    ensures r.Some? ==> exists found ::
              && AllFound(k, dir, found) && r.value == ReportOf(plan, COMPONENTS, phase, found)
              && ReportOk(plan, r.value, phase, k, dir) && VerdictStands(plan, phase, found) && AllStand(plan, k, dir, found)
    ensures r.None? ==>
              (AnyAmbiguous(k, dir)
               || exists found :: AllFound(k, dir, found) && !(VerdictStands(plan, phase, found) && AllStand(plan, k, dir, found)))
  {
    r := CreateReport(plan, phase, k, dir);
    if r.Some? {
      ghost var found :| AllFound(k, dir, found) && r.value == ReportOf(plan, COMPONENTS, phase, found);
      CreatedReportPassesIff(plan, phase, found, k, dir);
      if !ReportOk(plan, r.value, phase, k, dir) {
        return None;
      }
    }
  }

  /**
   From the changed paths to the validated report. A plan is refused exactly when documentation that renders is
   all that changed; on an accepted one only ambiguous results or evidence that no longer stands prevent a report.
   */
  method ReportOnChange(p: Policy, paths: seq<string>, risks: set<string>, s: Selection, contract: Contract, browserName: string,
                        image: bool, reuse: Component -> Option<Reference>, phase: Phase, k: Desk, dir: seq<E.Candidate>)
    returns (plan: Option<Plan>, r: Option<Report>)
    requires PolicyOk(p) && ContractOk(contract) && browserName != [] && IsDesk(k)
    ensures plan.None? <==> ImpactOf(p, paths).documentationOnly && RenderImpact(ImpactOf(p, paths))
    ensures plan.None? ==> r.None?
    ensures plan.Some? ==> HasAll(plan.value)
    ensures r.Some? ==> exists found ::
              && AllFound(k, dir, found) && r.value == ReportOf(plan.value, COMPONENTS, phase, found)
              && ReportOk(plan.value, r.value, phase, k, dir) && AllStand(plan.value, k, dir, found)
    ensures plan.Some? && r.None? ==>
              (AnyAmbiguous(k, dir) || exists found :: AllFound(k, dir, found) && !AllStand(plan.value, k, dir, found))
  {
    plan := PlanChange(p, paths, risks, s, contract, browserName, image, reuse);
    if plan.None? {
      return plan, None;
    }
    forall c: Component ensures c in plan.value.components { AllComponents(c); }
    ghost var i := ImpactOf(p, paths);
    RerunIsRequired(plan.value, s, i.(riskFlags := i.riskFlags + risks), image, reuse);
    r := ReportOnPlan(plan.value, phase, k, dir);
    forall found ensures VerdictStands(plan.value, phase, found) { RequiredRerunsStand(plan.value, phase, found); }
  }

  /** A report is built and then refused when evidence it reuses is not stored at all. */
  lemma MissingReuseIsRefused(plan: Plan, phase: Phase, found: Component -> Found, k: Desk, c: Component)
    requires PlanOk(plan) && HasAll(plan) && IsDesk(k) && AllFound(k, [], found)
    requires c in COMPONENTS && plan.components[c].disposition == Reused
    ensures !ReportOk(plan, ReportOf(plan, COMPONENTS, phase, found), phase, k, [])
  {
    CreatedReportPassesIff(plan, phase, found, k, []);
    assert !EvidenceStands(k, [], c, plan.components[c], found(c));
  }

  lemma BucketsAgree(plan: Plan, phase: Phase, found: Component -> Found)
    requires PlanOk(plan)
    ensures forall c :: c in COMPONENTS ==> BucketOk(plan, ReportOf(plan, COMPONENTS, phase, found), c)
  {
    forall c | c in COMPONENTS ensures BucketOk(plan, ReportOf(plan, COMPONENTS, phase, found), c) {
      ReportAccounts(plan, COMPONENTS, phase, found, c);
    }
  }

  lemma CreatedSkipsAreExplained(plan: Plan, phase: Phase, found: Component -> Found)
    requires PlanOk(plan)
    ensures SkipsAreExplained(plan, ReportOf(plan, COMPONENTS, phase, found), phase)
  {
    ReportFits(plan, COMPONENTS, phase, found);
    PendingNeedsEngineer(plan, COMPONENTS, phase, found);
  }
}
