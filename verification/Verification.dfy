/**
 The verification plan of a change.
 */
module Verification {
  import opened Impact
  import opened Wrappers
  import opened Sequences
  import opened Text
  import O = Ownership

  // `BuildPlan` decides for each component whether it runs fresh, is covered by reused
  // evidence or does not apply. The lemmas say when the plan passes its validator.

  datatype Component = Container | Django | EvidenceValidation | Playwright | Quality | Screenshots | Selector

  const COMPONENTS: seq<Component> := [Container, Django, EvidenceValidation, Playwright, Quality, Screenshots, Selector]

  const FULL_RISK_FLAGS: set<string> :=
    {"auth_security_privacy", "compatibility_contract", "dependency_toolchain", "deployment_runtime",
     "global_fixture", "schema_migration", "shared_runtime", "test_infrastructure"}

  // The flags in the order in which they are named as a reason.
  const RISK_PRIORITY: seq<string> :=
    ["auth_security_privacy", "schema_migration", "dependency_toolchain", "global_fixture",
     "test_infrastructure", "deployment_runtime", "compatibility_contract", "shared_runtime"]

  // The classifier's selection, as far as the plan reads it.
  datatype Selection = Selection(full: bool, reason: string)

  datatype ProfileReason =
    | UnknownImpact | CrossApplication | DocumentationOnly | RenderImpactReason | Risk(flag: string) | SingleApplication
    | Selected(reason: string)

  datatype Profile = DocumentationProfile | FocusedProfile | FullProfile

  datatype BrowserProfile = Smoke | Core | FullBrowser

  // ---- profiles ----

  function Applications(i: Impact): set<string> {
    set o | o in i.owners && "app." <= o
  }

  function FirstRisk(flags: set<string>, priority: seq<string>): string {
    if priority == [] then "" else if priority[0] in flags then priority[0] else FirstRisk(flags, priority[1..])
  }

  function ProfileOf(s: Selection, i: Impact): (bool, ProfileReason) {
    if i.unknownPaths != {} then (true, UnknownImpact)
    else if |Applications(i)| > 1 then (true, CrossApplication)
    else if i.documentationOnly then (false, DocumentationOnly)
    else if RenderImpact(i) then (true, RenderImpactReason)
    else if i.riskFlags * FULL_RISK_FLAGS != {} then (true, Risk(FirstRisk(i.riskFlags, RISK_PRIORITY)))
    else if |Applications(i)| == 1 && |i.owners| == 1 then (false, SingleApplication)
    else if s.full then (true, Selected(if s.reason == "" then "legacy_full_fallback" else s.reason))
    else (true, UnknownImpact)
  }

  function BrowserProfileOf(s: Selection, i: Impact): BrowserProfile {
    if {"surface.playwright", "surface.test_support", "surface.templates", "surface.course_platform_templates"} * i.owners != {}
       || Segment("templates") in i.renderReasons
       || (s.full && (s.reason == "diff_empty" || s.reason == "manual_dispatch") && i.owners == {})
    then FullBrowser
    else if RenderImpact(i) then Core else Smoke
  }

  // ---- screenshot captures ----

  datatype Route = Route(path: string, state: string, nodes: set<string>)
  datatype Viewport = Viewport(name: string, width: int, height: int)
  datatype Contract = Contract(routes: seq<Route>, viewports: seq<Viewport>)
  datatype Capture = Capture(browser: string, height: int, route: string, state: string, viewport: string, width: int)

  function Places(routes: seq<Route>): seq<(string, string)> {
    Mapped(routes, (r: Route) => (r.path, r.state))
  }

  /** The screenshot part of an accepted policy. */
  ghost predicate ContractOk(c: Contract) {
    && c.routes != []
    && (forall r :: r in c.routes ==> r.path != [] && r.path[0] == '/' && r.state != [])
    && Distinct(Places(c.routes))
    && (forall v :: v in c.viewports ==> v.name != [] && v.width > 0 && v.height > 0)
    && Distinct(Mapped(c.viewports, (v: Viewport) => v.name))
    && (exists v :: v in c.viewports && v.name == "desktop") && (exists v :: v in c.viewports && v.name == "mobile")
  }

  function CaptureOf(browser: string, r: Route, v: Viewport): Capture {
    Capture(browser, v.height, r.path, r.state, v.name, v.width)
  }

  function Impacted(routes: seq<Route>, nodes: set<string>): seq<Route> {
    if routes == [] then []
    else Impacted(routes[..|routes| - 1], nodes) + if routes[|routes| - 1].nodes * nodes != {} then [routes[|routes| - 1]] else []
  }

  /** The routes the impact reaches, or all of them when it reaches none. */
  function CapturedRoutes(c: Contract, nodes: set<string>): seq<Route> {
    if Impacted(c.routes, nodes) == [] then c.routes else Impacted(c.routes, nodes)
  }

  /** A route is captured when the impact reaches it, or when it reaches no route at all. */
  ghost predicate IsCaptured(c: Contract, nodes: set<string>, r: Route) {
    r in c.routes && (r.nodes * nodes != {} || forall q :: q in c.routes ==> q.nodes * nodes == {})
  }

  /** One capture for each captured route and viewport, and nothing else. */
  ghost predicate AreCaptures(c: Contract, browser: string, nodes: set<string>, captures: seq<Capture>) {
    forall x :: x in captures <==>
      exists r, v :: IsCaptured(c, nodes, r) && v in c.viewports && x == Capture(browser, v.height, r.path, r.state, v.name, v.width)
  }

  lemma CapturedRoutesAre(c: Contract, nodes: set<string>)
    ensures forall r :: r in CapturedRoutes(c, nodes) <==> IsCaptured(c, nodes, r)
  {
    ImpactedIs(c.routes, nodes);
    if Impacted(c.routes, nodes) == [] {
      assert forall q :: q in c.routes && q.nodes * nodes != {} ==> q in Impacted(c.routes, nodes);
    } else {
      assert Impacted(c.routes, nodes)[0] in Impacted(c.routes, nodes);
    }
  }

  lemma {:induction false} ImpactedIs(routes: seq<Route>, nodes: set<string>)
    ensures forall r :: r in Impacted(routes, nodes) <==> r in routes && r.nodes * nodes != {}
    ensures Distinct(Places(routes)) ==> Distinct(Places(Impacted(routes, nodes)))
  {
    if routes != [] {
      var older, last := routes[..|routes| - 1], routes[|routes| - 1];
      ImpactedIs(older, nodes);
      assert forall r :: r in routes <==> r in older || r == last;
      if Distinct(Places(routes)) {
        assert Places(routes) == Places(older) + [(last.path, last.state)];
        assert Distinct(Places(older));
        forall r | r in older ensures (r.path, r.state) != (last.path, last.state) {
          var k :| 0 <= k < |older| && older[k] == r;
          assert Places(routes)[k] == (r.path, r.state);
        }
        var kept := Impacted(older, nodes);
        assert Places(kept + [last]) == Places(kept) + [(last.path, last.state)];
        DistinctAppend(Places(kept), (last.path, last.state));
      }
    }
  }

  method RequiredCaptures(c: Contract, browser: string, nodes: set<string>) returns (captures: seq<Capture>)
    ensures AreCaptures(c, browser, nodes, captures)
    ensures ContractOk(c) ==> Distinct(captures)
  {
    var routes := CapturedRoutes(c, nodes);
    ImpactedIs(c.routes, nodes);
    captures := [];
    for i := 0 to |routes|
      invariant forall x :: x in captures <==>
                  exists k, v :: 0 <= k < i && v in c.viewports && x == CaptureOf(browser, routes[k], v)
      invariant ContractOk(c) ==> Distinct(captures)
    {
      var row := CaptureRow(c, browser, routes[i]);
      if ContractOk(c) {
        forall x, y | x in captures && y in row ensures x != y {
          var k, v :| 0 <= k < i && v in c.viewports && x == CaptureOf(browser, routes[k], v);
          assert Places(routes)[k] != Places(routes)[i];
        }
        DistinctConcat(captures, row);
      }
      captures := captures + row;
    }
    CapturedRoutesAre(c, nodes);
    assert forall r :: r in routes <==> IsCaptured(c, nodes, r);
  }

  method CaptureRow(c: Contract, browser: string, r: Route) returns (row: seq<Capture>)
    ensures forall x :: x in row <==> exists v :: v in c.viewports && x == CaptureOf(browser, r, v)
    ensures ContractOk(c) ==> Distinct(row)
  {
    row := [];
    for j := 0 to |c.viewports|
      invariant |row| == j && forall k :: 0 <= k < j ==> row[k] == CaptureOf(browser, r, c.viewports[k])
    {
      row := row + [CaptureOf(browser, r, c.viewports[j])];
    }
    ghost var names := Mapped(c.viewports, (v: Viewport) => v.name);
    assert forall k :: 0 <= k < |row| ==> row[k].viewport == names[k];
  }

  /** The validator's check of a plan's captures. */
  predicate CapturesOk(captures: seq<Capture>, impact: bool) {
    && (captures != [] <==> impact)
    && (forall x :: x in captures ==> x.browser != [] && x.route != [] && x.route[0] == '/' && x.state != []
                                      && x.viewport != [] && x.width > 0 && x.height > 0)
    && Distinct(captures)
    && (impact ==> (exists x :: x in captures && x.viewport == "desktop") && (exists x :: x in captures && x.viewport == "mobile"))
  }

  lemma RequiredCapturesAreOk(c: Contract, browser: string, nodes: set<string>, captures: seq<Capture>)
    requires ContractOk(c) && browser != []
    requires AreCaptures(c, browser, nodes, captures) && Distinct(captures)
    ensures CapturesOk(captures, true)
  {
    CapturedRoutesAre(c, nodes);
    ImpactedIs(c.routes, nodes);
    var r := CapturedRoutes(c, nodes)[0];
    assert IsCaptured(c, nodes, r);
    var d :| d in c.viewports && d.name == "desktop";
    var m :| m in c.viewports && m.name == "mobile";
    assert CaptureOf(browser, r, d) in captures && CaptureOf(browser, r, m) in captures;
  }

  // ---- the plan ----

  datatype Disposition = NotApplicable | Rerun | Reused

  // A reference to a stored envelope: its identity, and `body` for all the fields copied from it.
  datatype Reference = Reference(id: string, body: string)

  // `evidence` refers to the reused envelope.
  datatype ComponentPlan = ComponentPlan(disposition: Disposition, required: bool, evidence: Option<Reference>)

  datatype Plan = Plan(profile: Profile, reason: ProfileReason, browser: BrowserProfile, renderImpact: bool,
                       captures: seq<Capture>, components: map<Component, ComponentPlan>)

  /** Whether a component is required, and whether it must run fresh. */
  function Requirement(c: Component, forceFull: bool, i: Impact, browser: BrowserProfile, image: bool): (bool, bool) {
    if c == Selector || c == EvidenceValidation then (true, true)
    else if c == Container && image then (true, true)
    else if i.documentationOnly then (false, false)
    else if c == Screenshots then (true, RenderImpact(i))
    else if forceFull then (true, true)
    else if c == Quality || c == Django then (true, true)
    else if c == Playwright then (true, browser == FullBrowser)
    else (true, false)
  }

  /** The plan of one component; `reuse` answers what evidence may be reused. */
  function PlanComponent(c: Component, forceFull: bool, i: Impact, browser: BrowserProfile, image: bool,
                         reuse: Component -> Option<Reference>): ComponentPlan {
    var (required, anew) := Requirement(c, forceFull, i, browser, image);
    if !required then ComponentPlan(NotApplicable, false, None)
    else if anew then ComponentPlan(Rerun, true, None)
    else if reuse(c).Some? then ComponentPlan(Reused, true, reuse(c))
    else if c == Screenshots && !RenderImpact(i) then ComponentPlan(NotApplicable, false, None)
    else ComponentPlan(Rerun, true, None)
  }

  // ---- what a plan promises ----

  // Stated on the impact and the selection, without the functions above.

  ghost predicate TwoApplications(i: Impact) {
    exists a, b :: a in i.owners && b in i.owners && a != b && "app." <= a && "app." <= b
  }

  ghost predicate OneApplication(i: Impact) {
    exists a :: i.owners == {a} && "app." <= a
  }

  ghost predicate IsRisky(i: Impact) {
    exists flag :: flag in i.riskFlags && flag in FULL_RISK_FLAGS
  }

  /** Nothing about the impact by itself decides. */
  ghost predicate IsUnremarkable(i: Impact) {
    i.unknownPaths == {} && !TwoApplications(i) && !i.documentationOnly && i.renderReasons == {} && !IsRisky(i)
  }

  /** A change is focused only if one application alone is touched, without risk; in doubt the profile is full. */
  ghost predicate ProfileFits(profile: Profile, i: Impact) {
    match profile
    case FocusedProfile => IsUnremarkable(i) && OneApplication(i)
    case DocumentationProfile => i.unknownPaths == {} && !TwoApplications(i) && i.documentationOnly
    case FullProfile =>
      i.unknownPaths != {} || TwoApplications(i)
      || (!i.documentationOnly && (i.renderReasons != {} || IsRisky(i) || !OneApplication(i)))
  }

  /** The flag is the first one in priority that the impact has. */
  ghost predicate IsFirstRisk(flags: set<string>, flag: string) {
    exists k :: 0 <= k < |RISK_PRIORITY| && RISK_PRIORITY[k] == flag && flag in flags
                && forall j :: 0 <= j < k ==> RISK_PRIORITY[j] !in flags
  }

  ghost predicate ReasonFits(plan: Plan, s: Selection, i: Impact) {
    var known := i.unknownPaths == {};
    match plan.reason
    case UnknownImpact => !known || (IsUnremarkable(i) && !OneApplication(i) && !s.full)
    case CrossApplication => known && TwoApplications(i)
    case DocumentationOnly => plan.profile == DocumentationProfile
    case RenderImpactReason => known && !TwoApplications(i) && !i.documentationOnly && i.renderReasons != {}
    case Risk(flag) => known && !TwoApplications(i) && !i.documentationOnly && i.renderReasons == {} && IsFirstRisk(i.riskFlags, flag)
    case SingleApplication => plan.profile == FocusedProfile
    case Selected(text) =>
      && IsUnremarkable(i) && !OneApplication(i) && s.full
      && if s.reason == "" then text == "legacy_full_fallback" else text == s.reason
  }

  /** The whole browser surface is touched, or nothing is known of a range that was to be run in full. */
  ghost predicate TouchesBrowser(s: Selection, i: Impact) {
    || "surface.playwright" in i.owners || "surface.test_support" in i.owners
    || "surface.templates" in i.owners || "surface.course_platform_templates" in i.owners
    || Segment("templates") in i.renderReasons
    || (i.owners == {} && s.full && (s.reason == "diff_empty" || s.reason == "manual_dispatch"))
  }

  ghost predicate BrowserFits(browser: BrowserProfile, s: Selection, i: Impact) {
    match browser
    case FullBrowser => TouchesBrowser(s, i)
    case Core => !TouchesBrowser(s, i) && i.renderReasons != {}
    case Smoke => !TouchesBrowser(s, i) && i.renderReasons == {}
  }

  /** The component runs fresh. */
  ghost predicate RunsFresh(plan: Plan, i: Impact, image: bool, reuse: Component -> Option<Reference>, c: Component) {
    || c == Selector || c == EvidenceValidation || (c == Container && image)
    || (&& !i.documentationOnly
        && (|| c == Quality || c == Django
            || (c == Screenshots && i.renderReasons != {})
            || (c == Playwright && plan.browser == FullBrowser)
            || (c != Screenshots && (plan.profile == FullProfile || reuse(c) == None))))
  }

  /** A component runs fresh, is covered by the evidence found, or does not apply; what applies is required. */
  ghost predicate ComponentFits(plan: Plan, i: Impact, image: bool, reuse: Component -> Option<Reference>, c: Component) {
    && c in plan.components
    && var item := plan.components[c];
       && (item.disposition == Rerun <==> RunsFresh(plan, i, image, reuse, c))
       && (item.disposition == Reused <==> !RunsFresh(plan, i, image, reuse, c) && !i.documentationOnly && reuse(c).Some?)
       && (item.required <==> item.disposition != NotApplicable)
       && item.evidence == if item.disposition == Reused then reuse(c) else None
  }

  /** The plan of this selection and impact, captures aside. */
  ghost predicate PlanFor(plan: Plan, s: Selection, i: Impact, image: bool, reuse: Component -> Option<Reference>) {
    && plan.renderImpact == (i.renderReasons != {})
    && ProfileFits(plan.profile, i) && ReasonFits(plan, s, i) && BrowserFits(plan.browser, s, i)
    && (forall c :: c in plan.components <==> c in COMPONENTS)
    && (forall c :: c in COMPONENTS ==> ComponentFits(plan, i, image, reuse, c))
  }

  lemma SeveralIff<T>(xs: set<T>)
    ensures |xs| > 1 <==> exists a, b :: a in xs && b in xs && a != b
  {
    if a, b :| a in xs && b in xs && a != b {
      assert xs == {a, b} + (xs - {a, b});
      assert |xs| == |{a, b}| + |xs - {a, b}|;
    }
    if |xs| > 1 {
      var a :| a in xs;
      assert |xs - {a}| == |xs| - 1;
      var b :| b in xs - {a};
    }
  }

  lemma SingleIff<T>(xs: set<T>)
    ensures |xs| == 1 <==> exists a :: xs == {a}
  {
    if |xs| == 1 {
      var a :| a in xs;
      assert |xs - {a}| == 0;
      assert xs == {a};
    }
  }

  lemma ApplicationsAre(i: Impact)
    ensures |Applications(i)| > 1 <==> TwoApplications(i)
    ensures |Applications(i)| == 1 && |i.owners| == 1 <==> OneApplication(i)
  {
    var apps := Applications(i);
    assert forall o :: o in apps <==> o in i.owners && "app." <= o;
    SeveralIff(apps);
    SingleIff(i.owners);
    if a :| i.owners == {a} { OneOwner(i, a); }
  }

  lemma OneOwner(i: Impact, a: string)
    requires i.owners == {a}
    ensures |Applications(i)| == 1 <==> "app." <= a
    ensures OneApplication(i) <==> "app." <= a
  {
    assert Applications(i) == if "app." <= a then {a} else {};
    if OneApplication(i) { assert a in {a}; }
  }

  /** Every flag that forces the full profile has its place in the order, and no other flag has one. */
  lemma RisksAreRanked(flag: string)
    ensures flag in FULL_RISK_FLAGS <==> flag in RISK_PRIORITY
  {
  }

  lemma {:induction false} FirstRiskIs(flags: set<string>, priority: seq<string>)
    requires exists flag :: flag in flags && flag in priority
    ensures exists k :: 0 <= k < |priority| && priority[k] == FirstRisk(flags, priority) && priority[k] in flags
                        && forall j :: 0 <= j < k ==> priority[j] !in flags
  {
    if priority[0] in flags {
      assert priority[0] == FirstRisk(flags, priority);
    } else {
      var rest := priority[1..];
      var flag :| flag in flags && flag in priority;
      assert flag in rest;
      FirstRiskIs(flags, rest);
      var k :| 0 <= k < |rest| && rest[k] == FirstRisk(flags, rest) && rest[k] in flags && forall j :: 0 <= j < k ==> rest[j] !in flags;
      assert priority[k + 1] == rest[k] && forall j :: 0 < j < k + 1 ==> priority[j] == rest[j - 1];
    }
  }

  function ProfileNamed(full: bool, i: Impact): Profile {
    if full then FullProfile else if i.documentationOnly then DocumentationProfile else FocusedProfile
  }

  lemma ProfileIs(s: Selection, i: Impact)
    ensures ProfileFits(ProfileNamed(ProfileOf(s, i).0, i), i)
    ensures i.unknownPaths == {} && !TwoApplications(i) && !i.documentationOnly && i.renderReasons == {} && IsRisky(i)
            ==> IsFirstRisk(i.riskFlags, FirstRisk(i.riskFlags, RISK_PRIORITY))
  {
    ApplicationsAre(i);
    if flag :| flag in i.riskFlags && flag in FULL_RISK_FLAGS {
      assert flag in i.riskFlags * FULL_RISK_FLAGS;
      RisksAreRanked(flag);
      FirstRiskIs(i.riskFlags, RISK_PRIORITY);
    } else {
      assert i.riskFlags * FULL_RISK_FLAGS == {};
    }
  }

  lemma ReasonIs(plan: Plan, s: Selection, i: Impact)
    requires plan.reason == ProfileOf(s, i).1 && plan.profile == ProfileNamed(ProfileOf(s, i).0, i)
    ensures ReasonFits(plan, s, i)
  {
    ApplicationsAre(i);
    ProfileIs(s, i);
    if IsRisky(i) {
      var flag :| flag in i.riskFlags && flag in FULL_RISK_FLAGS;
      assert flag in i.riskFlags * FULL_RISK_FLAGS;
    } else {
      assert i.riskFlags * FULL_RISK_FLAGS == {};
    }
  }

  lemma BrowserIs(s: Selection, i: Impact)
    ensures BrowserFits(BrowserProfileOf(s, i), s, i)
  {
    var surfaces := {"surface.playwright", "surface.test_support", "surface.templates", "surface.course_platform_templates"};
    assert surfaces * i.owners != {} <==> exists x :: x in surfaces * i.owners;
    assert forall x :: x in surfaces * i.owners <==> x in surfaces && x in i.owners;
  }

  lemma ComponentIs(plan: Plan, s: Selection, i: Impact, image: bool, reuse: Component -> Option<Reference>, c: Component)
    requires plan.profile == ProfileNamed(ProfileOf(s, i).0, i) && plan.browser == BrowserProfileOf(s, i)
    requires c in plan.components
    requires plan.components[c] == PlanComponent(c, ProfileOf(s, i).0, i, BrowserProfileOf(s, i), image, reuse)
    ensures ComponentFits(plan, i, image, reuse, c)
  {
    ComponentTable(plan, i, image, reuse, c);
  }

  lemma ComponentTable(plan: Plan, i: Impact, image: bool, reuse: Component -> Option<Reference>, c: Component)
    requires c in plan.components
    requires plan.components[c] == PlanComponent(c, plan.profile == FullProfile, i, plan.browser, image, reuse)
    ensures ComponentFits(plan, i, image, reuse, c)
  {
  }

  method BuildPlan(s: Selection, i: Impact, contract: Contract, browserName: string, image: bool,
                   reuse: Component -> Option<Reference>) returns (plan: Plan)
    ensures PlanFor(plan, s, i, image, reuse)
    ensures if i.renderReasons == {} then plan.captures == [] else AreCaptures(contract, browserName, i.owners + i.downstream, plan.captures)
    ensures ContractOk(contract) && browserName != [] ==> CapturesOk(plan.captures, i.renderReasons != {})
  {
    var (forceFull, reason) := ProfileOf(s, i);
    var browser := BrowserProfileOf(s, i);
    var captures: seq<Capture> := [];
    if i.renderReasons != {} {
      captures := RequiredCaptures(contract, browserName, i.owners + i.downstream);
      if ContractOk(contract) && browserName != [] {
        RequiredCapturesAreOk(contract, browserName, i.owners + i.downstream, captures);
      }
    }
    var components: map<Component, ComponentPlan> := map[];
    for k := 0 to |COMPONENTS|
      invariant forall c :: c in components <==> c in COMPONENTS[..k]
      invariant forall c :: c in COMPONENTS[..k] ==> components[c] == PlanComponent(c, forceFull, i, browser, image, reuse)
    {
      var c := COMPONENTS[k];
      assert COMPONENTS[..k + 1] == COMPONENTS[..k] + [c];
      var item := ComponentPlan(NotApplicable, Requirement(c, forceFull, i, browser, image).0, None);
      var anew := Requirement(c, forceFull, i, browser, image).1;
      if item.required {
        if anew {
          item := item.(disposition := Rerun);
        } else if reuse(c).Some? {
          item := item.(disposition := Reused, evidence := reuse(c));
        } else if c == Screenshots && i.renderReasons == {} {
          item := item.(disposition := NotApplicable, required := false);
        } else {
          item := item.(disposition := Rerun);
        }
      }
      components := components[c := item];
    }
    assert COMPONENTS[..|COMPONENTS|] == COMPONENTS;
    plan := Plan(ProfileNamed(forceFull, i), reason, browser, i.renderReasons != {}, captures, components);
    ProfileIs(s, i);
    ReasonIs(plan, s, i);
    BrowserIs(s, i);
    forall c | c in COMPONENTS ensures ComponentFits(plan, i, image, reuse, c) { ComponentIs(plan, s, i, image, reuse, c); }
  }

  predicate ComponentOk(item: ComponentPlan) {
    && (item.required ==> item.disposition != NotApplicable)
    && (item.disposition == Reused <==> item.evidence.Some?)
  }

  /** The cross-field checks of the plan validator. */
  predicate PlanOk(plan: Plan) {
    && (forall c :: c in COMPONENTS <==> c in plan.components)
    && (forall c :: c in plan.components ==> ComponentOk(plan.components[c]))
    && CapturesOk(plan.captures, plan.renderImpact)
    && (plan.profile == FullProfile ==>
          forall c :: c in {Container, Django, Playwright, Quality} && c in plan.components ==> plan.components[c].disposition == Rerun)
    && (plan.renderImpact && Screenshots in plan.components ==> plan.components[Screenshots].disposition == Rerun)
  }

  /** The plans that the validator accepts. */
  lemma PlanOkMeans(plan: Plan)
    ensures PlanOk(plan)
       <==> && (forall c: Component :: c in plan.components
                  && (plan.components[c].required ==> plan.components[c].disposition != NotApplicable)
                  && (plan.components[c].disposition == Reused <==> plan.components[c].evidence != None))
            && (plan.renderImpact <==> plan.captures != [])
            && (forall x :: x in plan.captures ==>
                  && 0 < |x.browser| && 0 < |x.state| && 0 < |x.viewport| && 0 < x.width && 0 < x.height
                  && exists rest :: x.route == "/" + rest)
            && (forall i, j :: 0 <= i < j < |plan.captures| ==> plan.captures[i] != plan.captures[j])
            && (plan.renderImpact ==> && plan.components[Screenshots].disposition == Rerun
                                      && (exists x :: x in plan.captures && x.viewport == "desktop")
                                      && (exists x :: x in plan.captures && x.viewport == "mobile"))
            && (plan.profile == FullProfile ==>
                  && plan.components[Container].disposition == plan.components[Django].disposition == Rerun
                  && plan.components[Playwright].disposition == plan.components[Quality].disposition == Rerun)
  {
    forall c: Component ensures c in COMPONENTS { AllComponents(c); }
    forall x | x in plan.captures ensures x.route != [] && x.route[0] == '/' <==> exists rest :: x.route == "/" + rest {
      if x.route != [] && x.route[0] == '/' { assert x.route == "/" + x.route[1..]; }
    }
  }

  lemma AllComponents(c: Component)
    ensures c in COMPONENTS
  {
    match c
    case Container => assert COMPONENTS[0] == c;
    case Django => assert COMPONENTS[1] == c;
    case EvidenceValidation => assert COMPONENTS[2] == c;
    case Playwright => assert COMPONENTS[3] == c;
    case Quality => assert COMPONENTS[4] == c;
    case Screenshots => assert COMPONENTS[5] == c;
    case Selector => assert COMPONENTS[6] == c;
  }

  /**
   For every policy, change and reuse oracle, the plan passes its validator if and
   only if the change is not documentation-only with an impact on rendering.
   */
  lemma PlanPassesIff(p: Policy, paths: seq<string>, risks: set<string>, s: Selection, image: bool,
                      reuse: Component -> Option<Reference>, plan: Plan)
    requires var i := ImpactOf(p, paths); PlanFor(plan, s, i.(riskFlags := i.riskFlags + risks), image, reuse)
    requires CapturesOk(plan.captures, plan.renderImpact)
    ensures PlanOk(plan) <==> !(ImpactOf(p, paths).documentationOnly && RenderImpact(ImpactOf(p, paths)))
  {
    var i := ImpactOf(p, paths);
    if i.documentationOnly { DocumentationOnlyMeans(p, paths); }
    PlanOkIff(plan, s, i.(riskFlags := i.riskFlags + risks), image, reuse);
  }

  /** From the changed paths to the validated plan: there is none exactly when documentation that renders is all that changed. */
  method PlanChange(p: Policy, paths: seq<string>, risks: set<string>, s: Selection, contract: Contract, browserName: string,
                    image: bool, reuse: Component -> Option<Reference>) returns (r: Option<Plan>)
    requires PolicyOk(p) && ContractOk(contract) && browserName != []
    ensures r.None? <==> ImpactOf(p, paths).documentationOnly && RenderImpact(ImpactOf(p, paths))
    ensures var i := ImpactOf(p, paths);
            r.Some? ==> PlanOk(r.value) && PlanFor(r.value, s, i.(riskFlags := i.riskFlags + risks), image, reuse)
  {
    var i := ImpactForPaths(p, paths);
    var plan := BuildPlan(s, i.(riskFlags := i.riskFlags + risks), contract, browserName, image, reuse);
    PlanPassesIff(p, paths, risks, s, image, reuse, plan);
    return if PlanOk(plan) then Some(plan) else None;
  }

  lemma OneNodeIsNotTwo(i: Impact)
    requires i.owners == {O.DOCUMENTATION}
    ensures !TwoApplications(i)
  {
  }

  lemma PlanOkIff(plan: Plan, s: Selection, i: Impact, image: bool, reuse: Component -> Option<Reference>)
    requires PlanFor(plan, s, i, image, reuse) && CapturesOk(plan.captures, plan.renderImpact)
    requires i.documentationOnly ==> i.owners == {O.DOCUMENTATION} && i.unknownPaths == {}
    ensures PlanOk(plan) <==> !(i.documentationOnly && RenderImpact(i))
  {
    if i.documentationOnly { OneNodeIsNotTwo(i); }
    forall c ensures c in COMPONENTS && ComponentFits(plan, i, image, reuse, c) { AllComponents(c); }
    ComponentsOk(plan, i, image, reuse);
  }

  lemma ComponentsOk(plan: Plan, i: Impact, image: bool, reuse: Component -> Option<Reference>)
    requires forall c :: ComponentFits(plan, i, image, reuse, c)
    ensures forall c :: c in plan.components && ComponentOk(plan.components[c])
    ensures !i.documentationOnly && plan.profile == FullProfile ==>
              forall c :: c in {Container, Django, Playwright, Quality} ==> plan.components[c].disposition == Rerun
    ensures i.renderReasons != {} ==> (plan.components[Screenshots].disposition == Rerun <==> !i.documentationOnly)
  {
    forall c ensures c in plan.components && ComponentOk(plan.components[c]) { assert ComponentFits(plan, i, image, reuse, c); }
    forall c | c in {Container, Django, Playwright, Quality} && !i.documentationOnly && plan.profile == FullProfile
      ensures plan.components[c].disposition == Rerun
    {
      assert ComponentFits(plan, i, image, reuse, c);
    }
    assert ComponentFits(plan, i, image, reuse, Screenshots);
  }

  /** Such a change exists: a documentation file with a rendered extension. */
  lemma DocumentationCanRender(p: Policy, path: string)
    requires O.ValidPath(path) && |OwnersOf(p.nodes, path)| == 1 && OwnersOf(p.nodes, path)[0].id == O.DOCUMENTATION
    requires !PolicyDocument(p.rules, path) && Lower(Suffix(Name(path))) in p.rules.extensions
    ensures ImpactOf(p, [path]).documentationOnly && RenderImpact(ImpactOf(p, [path]))
  {
    assert [path][..0] == [];
    assert DirectOf(p, [path]) == Join2(DirectOf(p, []), PathImpact(p, path));
    assert Extension(Lower(Suffix(Name(path)))) in ImpactOf(p, [path]).renderReasons;
  }

  // The documentation node and the rules of the program's policy.
  const DOCS_NODE := O.Node(O.DOCUMENTATION, ["_docs/"], ["README.md"], {"evidence_validation", "selector"}, {}, {})

  const SHIPPED_RULES :=
    Rules({"migrations"}, {"fixtures"}, {"conftest.py"}, {"tests", "tests_ci", "playwright_tests", "e2e"},
          {"_docs/PROCESS.md"}, {"_docs/ci/"},
          {".css", ".htm", ".html", ".jinja", ".jinja2", ".js", ".mjs", ".tmpl", ".tpl"},
          {"context_processors.py", "serializers.py", "urls.py", "views.py"}, {"static", "templates", "views"})

  const DOCS_PAGE := "_docs" + "/" + "a.html"

  predicate ProperName(name: string) {
    name != [] && '/' !in name && '\0' !in name && name != "." && name != ".."
  }

  lemma TwoParts(folder: string, name: string)
    requires ProperName(folder) && ProperName(name) && folder[0] != '/'
    ensures O.ValidPath(folder + "/" + name) && Name(folder + "/" + name) == name
  {
    SplitHead(folder, '/', name);
    SplitNone(name, '/');
  }

  lemma {:induction false} NoDot(s: string)
    requires '.' !in s
    ensures FromLastDot(s) == []
  {
    if s != [] { NoDot(s[1..]); }
  }

  lemma {:induction false} LastDot(stem: string, extension: string)
    requires '.' !in extension
    ensures FromLastDot(stem + "." + extension) == "." + extension
  {
    var s := stem + "." + extension;
    if stem == [] {
      assert s == "." + extension && s[1..] == extension;
      NoDot(extension);
    } else {
      assert s[1..] == stem[1..] + "." + extension;
      LastDot(stem[1..], extension);
    }
  }

  lemma {:induction false} LowerStays(s: string)
    requires forall i :: 0 <= i < |s| ==> !('A' <= s[i] <= 'Z')
    ensures Lower(s) == s
  {
    if s != [] { LowerStays(s[1..]); }
  }

  lemma DocsPageIsHtml()
    ensures O.ValidPath(DOCS_PAGE) && Lower(Suffix(Name(DOCS_PAGE))) in SHIPPED_RULES.extensions
  {
    TwoParts("_docs", "a.html");
    LastDot("a", "html");
    assert "a" + "." + "html" == "a.html" && "." + "html" == ".html";
    LowerStays(".html");
  }

  lemma DocsPageIsNoPolicy()
    ensures !PolicyDocument(SHIPPED_RULES, DOCS_PAGE)
  {
    assert DOCS_PAGE[6] != "_docs/ci/"[6] && DOCS_PAGE[6] != "_docs/PROCESS.md"[6];
  }

  lemma OwnerIs(nodes: seq<O.Node>, n: O.Node, path: string)
    requires O.Accepted(nodes) && n in nodes && O.Owns(n, path)
    ensures |OwnersOf(nodes, path)| == 1 && OwnersOf(nodes, path)[0] == n
  {
    AcceptedOwnerIsUnique(nodes, path);
    OwnersAreNodes(nodes, path);
    assert OwnersOf(nodes, path)[0] in OwnersOf(nodes, path);
    var i :| 0 <= i < |nodes| && nodes[i] == n;
    var j :| 0 <= j < |nodes| && nodes[j] == OwnersOf(nodes, path)[0];
    O.AtMostOneOwner(nodes, path, i, j);
  }

  lemma DocsPageIsOwned()
    ensures O.Owns(DOCS_NODE, DOCS_PAGE)
  {
    assert "_docs/" in DOCS_NODE.prefixes && "_docs/" <= DOCS_PAGE;
  }

  /** In every accepted policy with this node and these rules a page below `_docs/` is such a change. */
  lemma DocsPageRenders(p: Policy)
    requires O.Accepted(p.nodes) && DOCS_NODE in p.nodes && p.rules == SHIPPED_RULES
    ensures ImpactOf(p, [DOCS_PAGE]).documentationOnly && RenderImpact(ImpactOf(p, [DOCS_PAGE]))
  {
    DocsPageIsHtml();
    DocsPageIsNoPolicy();
    DocsPageIsOwned();
    OwnedPageRenders(p, DOCS_NODE, DOCS_PAGE);
  }

  lemma OwnedPageRenders(p: Policy, n: O.Node, path: string)
    requires O.Accepted(p.nodes) && n in p.nodes && n.id == O.DOCUMENTATION && O.Owns(n, path) && O.ValidPath(path)
    requires !PolicyDocument(p.rules, path) && Lower(Suffix(Name(path))) in p.rules.extensions
    ensures ImpactOf(p, [path]).documentationOnly && RenderImpact(ImpactOf(p, [path]))
  {
    OwnerIs(p.nodes, n, path);
    DocumentationCanRender(p, path);
  }

  /** The node by itself is an accepted policy. */
  lemma DocsNodeIsAccepted()
    ensures O.Accepted([DOCS_NODE])
  {
    NameIsValid("_docs");
    NameIsValid("README.md");
    assert "_docs/"[..5] == "_docs";
    OneNodeIsAccepted(DOCS_NODE, "_docs/", "README.md");
  }

  lemma NameIsValid(name: string)
    requires ProperName(name)
    ensures O.ValidPath(name)
  {
    SplitNone(name, '/');
  }

  lemma OneNodeIsAccepted(n: O.Node, prefix: string, exact: string)
    requires n.prefixes == [prefix] && n.exact == [exact] && O.ValidPrefix(prefix) && O.ValidPath(exact)
    ensures O.Accepted([n])
  {
    assert O.Shaped([n]);
    assert O.FlatPrefixes([n]);
    O.AcceptedIffUnambiguous([n]);
  }

  /** A plan reruns only what it requires. */
  lemma RerunIsRequired(plan: Plan, s: Selection, i: Impact, image: bool, reuse: Component -> Option<Reference>)
    requires PlanFor(plan, s, i, image, reuse)
    ensures forall c :: c in plan.components && plan.components[c].disposition == Rerun ==> plan.components[c].required
  {
  }
}
