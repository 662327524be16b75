/**
 Choosing between the focused and the full test profile for a change, and the
 validator of the choice.
 */
module Selection {
  import opened Wrappers
  import opened Text
  import opened Ownership
  import opened Impact
  import opened NameStatus

  datatype Profile = Focused | Full

  datatype Event = Push | WorkflowDispatch | OtherEvent(name: string)

  datatype Reason =
    | BaseInvalid | BaseUnavailable | BaseZero | ConfigurationOrDependency | CrossApplication | DiffEmpty | DiffFailed
    | DiffUnparseable | DocumentationOrContract | HeadInvalid | HeadMismatch | HeadUnavailable | HtmlChanged
    | ManualDispatch | MigrationChanged | NonAncestorBase | StaticChanged | SharedApplication | TemplateChanged
    | UnknownPath | UnsupportedFileMode | UnsupportedStatusKind
    | SingleApplication

  datatype Selection = Selection(profile: Profile, reason: Reason, roots: seq<string>, labels: seq<string>,
                                 changedPaths: nat, event: Event, base: Option<string>, head: Option<string>)

  // The policy, the rules for files outside every directory, the test labels of every
  // application, and which texts are full commit ids.
  datatype Config = Config(policy: Policy, suffixes: set<string>, prefixes: set<string>,
                           labels: map<string, seq<string>>, isSha: string -> bool)

  // ---- paths ----

  predicate IsRepositoryPath(path: string) {
    path != [] && path[0] != '/' && forall part :: part in Split(path, '/') ==> part != "" && part != "." && part != ".."
  }

  /** The application directory a path lies in. */
  function MappedRoot(c: Config, path: string): Option<string> {
    if '/' !in path || After(path, '/') == [] || Before(path, '/') !in c.labels then None else Some(Before(path, '/'))
  }

  function MappedRoots(c: Config, paths: seq<string>): seq<string> {
    if paths == [] then []
    else (if MappedRoot(c, paths[0]).Some? then [MappedRoot(c, paths[0]).value] else []) + MappedRoots(c, paths[1..])
  }

  function PathsOf(records: seq<ChangeRecord>): seq<string> {
    if records == [] then [] else records[0].paths + PathsOf(records[1..])
  }

  const TEMPLATE_SUFFIXES: set<string> := {".htm", ".html", ".jinja", ".jinja2", ".tmpl", ".tpl"}

  predicate IsTemplate(path: string) {
    Lower(Suffix(Name(path))) in TEMPLATE_SUFFIXES
  }

  predicate IsRootConfiguration(c: Config, path: string) {
    '/' !in path
    && ((exists s :: s in c.suffixes && EndsWith(path, s)) || (exists p :: p in c.prefixes && p <= path))
  }

  // ---- owners ----

  predicate HasFlag(p: Policy, id: string, flag: string) {
    exists n :: n in p.nodes && n.id == id && flag in n.riskFlags
  }

  predicate IsShared(p: Policy, id: string) {
    "shared." <= id || HasFlag(p, id, "auth_security_privacy")
  }

  predicate IsContract(p: Policy, id: string) {
    id == DOCUMENTATION || HasFlag(p, id, "compatibility_contract")
  }

  predicate IsInfrastructure(p: Policy, id: string) {
    "surface." <= id || HasFlag(p, id, "test_infrastructure") || HasFlag(p, id, "dependency_toolchain")
    || HasFlag(p, id, "deployment_runtime")
  }

  // ---- the decision ----

  /** The reason concerns the paths themselves. */
  predicate IsAboutPaths(reason: Reason) {
    reason == MigrationChanged || reason == TemplateChanged || reason == StaticChanged || reason == HtmlChanged
    || reason == ConfigurationOrDependency || reason == SharedApplication || reason == DocumentationOrContract
  }

  function ForceFullReason(c: Config, paths: seq<string>): (r: Option<Reason>)
    ensures r.Some? ==> IsAboutPaths(r.value)
  {
    ReasonFor(c, DirectOf(c.policy, paths), paths)
  }

  /** The tests on an impact `d` and its paths, in order. */
  function Tests(c: Config, d: Direct, paths: seq<string>): (r: seq<bool>)
    ensures |r| == 8
  {
    ["schema_migration" in d.risks,
     Segment("templates") in d.reasons,
     Segment("static") in d.reasons,
     exists q :: q in paths && IsTemplate(q),
     exists q :: q in paths && IsRootConfiguration(c, q),
     exists id :: id in d.owners && IsShared(c.policy, id),
     exists id :: id in d.owners && IsContract(c.policy, id),
     exists id :: id in d.owners && IsInfrastructure(c.policy, id)]
  }

  /** The reason that goes with the first test met. */
  function FirstReason(met: seq<bool>): (r: Option<Reason>)
    requires |met| == 8
    ensures r.Some? ==> IsAboutPaths(r.value)
    ensures r.Some? <==> true in met
  {
    if met[0] then Some(MigrationChanged)
    else if met[1] then Some(TemplateChanged)
    else if met[2] then Some(StaticChanged)
    else if met[3] then Some(HtmlChanged)
    else if met[4] then Some(ConfigurationOrDependency)
    else if met[5] then Some(SharedApplication)
    else if met[6] then Some(DocumentationOrContract)
    else if met[7] then Some(ConfigurationOrDependency)
    else None
  }

  /** The reason an impact and its paths give for the full profile. */
  function ReasonFor(c: Config, d: Direct, paths: seq<string>): (r: Option<Reason>)
    ensures r.Some? ==> IsAboutPaths(r.value)
  {
    FirstReason(Tests(c, d, paths))
  }

  datatype Choice = ChooseFull(reason: Reason) | ChooseFocused(root: string)

  function Choose(c: Config, records: seq<ChangeRecord>): Choice {
    var paths := PathsOf(records);
    var roots := SortedSet(MappedRoots(c, paths));
    if records == [] then ChooseFull(DiffEmpty)
    else if exists r :: r in records && !r.ordinary then ChooseFull(UnsupportedFileMode)
    else if exists q :: q in paths && !IsRepositoryPath(q) then ChooseFull(UnknownPath)
    else if ForceFullReason(c, paths).Some? then ChooseFull(ForceFullReason(c, paths).value)
    else if exists q :: q in paths && MappedRoot(c, q).None? then ChooseFull(UnknownPath)
    else if |roots| != 1 then ChooseFull(CrossApplication)
    else ChooseFocused(roots[0])
  }

  /** The selection, or the validator's refusal. */
  function Classify(c: Config, records: seq<ChangeRecord>, event: Event, base: string, head: string): Option<Selection> {
    var paths := PathsOf(records);
    var roots := SortedSet(MappedRoots(c, paths));
    match Choose(c, records)
    case ChooseFull(reason) => Some(Selection(Full, reason, roots, [], |paths|, event, Some(base), Some(head)))
    case ChooseFocused(root) =>
      RootIsMapped(c, paths);
      var s := Selection(Focused, SingleApplication, [root], c.labels[root], |paths|, event, Some(base), Some(head));
      if IsValid(c, s) then Some(s) else None
  }

  lemma {:induction false} RootIsMapped(c: Config, paths: seq<string>)
    ensures forall r :: r in SortedSet(MappedRoots(c, paths)) ==> r in c.labels
    ensures forall r :: r in SortedSet(MappedRoots(c, paths)) <==> exists q :: q in paths && MappedRoot(c, q) == Some(r)
  {
    SortedSetIs(MappedRoots(c, paths));
    MappedRootsIs(c, paths);
  }

  lemma {:induction false} MappedRootsIs(c: Config, paths: seq<string>)
    ensures forall r :: r in MappedRoots(c, paths) <==> exists q :: q in paths && MappedRoot(c, q) == Some(r)
  {
    if paths != [] {
      MappedRootsIs(c, paths[1..]);
      assert forall q :: q in paths <==> q == paths[0] || q in paths[1..];
    }
  }

  // ---- the validator ----

  predicate IsSortedUnique(xs: seq<string>) {
    xs == SortedSet(xs)
  }

  predicate IsShaOrNone(c: Config, id: Option<string>) {
    id.Some? ==> c.isSha(id.value)
  }

  predicate IsValid(c: Config, s: Selection) {
    && (s.event == Push || s.event == WorkflowDispatch)
    && IsShaOrNone(c, s.base) && IsShaOrNone(c, s.head)
    && IsSortedUnique(s.roots) && (forall r :: r in s.roots ==> r in c.labels)
    && IsSortedUnique(s.labels) && (forall l :: l in s.labels ==> exists r :: r in c.labels && l in c.labels[r])
    && (if s.profile == Focused then
          && s.reason == SingleApplication && |s.roots| == 1 && s.base.Some? && s.head.Some?
          && s.labels == c.labels[s.roots[0]]
        else
          s.reason != SingleApplication && s.labels == [])
    && (s.event == WorkflowDispatch && s.reason == ManualDispatch ==> s.profile == Full && s.base == None)
    && !(s.event == Push && s.reason == ManualDispatch)
  }

  lemma {:induction false} IncreasingIsSortedSet(xs: seq<string>)
    ensures Increasing(xs) <==> IsSortedUnique(xs)
  {
    SortedSetIs(xs);
    if Increasing(xs) && xs != [] {
      var rest := xs[1..];
      assert Increasing(rest) by {
        forall i, j | 0 <= i < j < |rest| ensures Less(rest[i], rest[j]) { assert rest[i] == xs[i + 1]; }
      }
      IncreasingIsSortedSet(rest);
      if rest != [] { assert rest[0] == xs[1] && Less(xs[0], xs[1]); }
      assert [xs[0]] + rest == xs;
    }
  }

  lemma FullIsNotSingle(c: Config, records: seq<ChangeRecord>)
    requires Choose(c, records).ChooseFull?
    ensures Choose(c, records).reason != SingleApplication && Choose(c, records).reason != ManualDispatch
  {
  }

  /** A full selection passes the validator exactly when the caller's event and commit ids do. */
  lemma FullIsValidIff(c: Config, records: seq<ChangeRecord>, event: Event, base: string, head: string)
    requires Choose(c, records).ChooseFull?
    ensures var s := Classify(c, records, event, base, head);
            s.Some? && (IsValid(c, s.value) <==> (event == Push || event == WorkflowDispatch) && c.isSha(base) && c.isSha(head))
  {
    FullIsNotSingle(c, records);
    var roots := SortedSet(MappedRoots(c, PathsOf(records)));
    RootIsMapped(c, PathsOf(records));
    SortedSetIs(MappedRoots(c, PathsOf(records)));
    IncreasingIsSortedSet(roots);
  }

  /** A focused selection is handed out exactly when the caller's event and commit ids are proper and the labels sorted. */
  lemma FocusedIsValidIff(c: Config, records: seq<ChangeRecord>, event: Event, base: string, head: string)
    requires Choose(c, records).ChooseFocused?
    ensures Choose(c, records).root in c.labels
    ensures Classify(c, records, event, base, head).Some?
        <==> && (event == Push || event == WorkflowDispatch) && c.isSha(base) && c.isSha(head)
             && Increasing(c.labels[Choose(c, records).root])
  {
    RootIsMapped(c, PathsOf(records));
    var root := Choose(c, records).root;
    assert SortedSet([root]) == [root];
    IncreasingIsSortedSet(c.labels[root]);
  }

  // ---- what a focused choice means ----

  predicate OwnerForces(c: Config, id: string) {
    IsShared(c.policy, id) || IsContract(c.policy, id) || IsInfrastructure(c.policy, id)
  }

  /** An impact asks for the full profile. */
  predicate ImpactForces(c: Config, d: Direct) {
    || "schema_migration" in d.risks || Segment("templates") in d.reasons || Segment("static") in d.reasons
    || exists id :: id in d.owners && OwnerForces(c, id)
  }

  /** One path asks for the full profile by itself. */
  predicate PathForces(c: Config, path: string) {
    ImpactForces(c, PathImpact(c.policy, path)) || IsTemplate(path) || IsRootConfiguration(c, path)
  }

  lemma ForcingParts(c: Config, d: Direct, paths: seq<string>)
    ensures ReasonFor(c, d, paths).Some?
        <==> ImpactForces(c, d) || exists q :: q in paths && (IsTemplate(q) || IsRootConfiguration(c, q))
  {
    var met := Tests(c, d, paths);
    assert true in met <==> met[0] || met[1] || met[2] || met[3] || met[4] || met[5] || met[6] || met[7];
  }

  lemma JoinForces(c: Config, a: Direct, b: Direct)
    ensures ImpactForces(c, Join2(a, b)) <==> ImpactForces(c, a) || ImpactForces(c, b)
  {
  }

  lemma {:induction false} ImpactForcesPointwise(c: Config, paths: seq<string>)
    ensures ImpactForces(c, DirectOf(c.policy, paths)) <==> exists q :: q in paths && ImpactForces(c, PathImpact(c.policy, q))
  {
    if paths != [] {
      var older, last := paths[..|paths| - 1], paths[|paths| - 1];
      ImpactForcesPointwise(c, older);
      JoinForces(c, DirectOf(c.policy, older), PathImpact(c.policy, last));
      assert forall q :: q in paths <==> q in older || q == last;
    }
  }

  /** A list of paths forces the full profile exactly when one of its paths does. */
  lemma ForcingIsPointwise(c: Config, paths: seq<string>)
    ensures ForceFullReason(c, paths).Some? <==> exists q :: q in paths && PathForces(c, q)
  {
    ForcingParts(c, DirectOf(c.policy, paths), paths);
    ImpactForcesPointwise(c, paths);
  }

  predicate PathIsFocused(c: Config, path: string, root: string) {
    IsRepositoryPath(path) && !PathForces(c, path) && MappedRoot(c, path) == Some(root)
  }

  lemma OneElement(xs: seq<string>, x: string)
    requires Increasing(xs) && xs != [] && forall y :: y in xs ==> y == x
    ensures xs == [x]
  {
    assert xs[0] in xs;
    if |xs| > 1 { assert xs[1] in xs; LessTotal(x, x); }
  }

  lemma OneRoot(c: Config, paths: seq<string>, root: string)
    ensures var roots := SortedSet(MappedRoots(c, paths));
            (forall q :: q in paths ==> MappedRoot(c, q).Some?) ==>
              (roots == [root] <==> paths != [] && forall q :: q in paths ==> MappedRoot(c, q) == Some(root))
  {
    var roots := SortedSet(MappedRoots(c, paths));
    RootIsMapped(c, paths);
    SortedSetIs(MappedRoots(c, paths));
    if (forall q :: q in paths ==> MappedRoot(c, q) == Some(root)) && paths != [] {
      assert paths[0] in paths && root in roots;
      OneElement(roots, root);
    }
    if roots == [root] { assert root in roots; }
  }

  lemma FocusedParts(c: Config, records: seq<ChangeRecord>, root: string)
    ensures var paths := PathsOf(records);
            Choose(c, records) == ChooseFocused(root)
            <==> && (forall r :: r in records ==> r.ordinary) && (forall q :: q in paths ==> IsRepositoryPath(q))
                 && ForceFullReason(c, paths).None? && (forall q :: q in paths ==> MappedRoot(c, q).Some?)
                 && SortedSet(MappedRoots(c, paths)) == [root]
  {
    if Choose(c, records) == ChooseFocused(root) {
      assert SortedSet(MappedRoots(c, PathsOf(records))) == [root];
    }
  }

  /**
   The focused profile is chosen for an application exactly when there is a path, every
   record is ordinary, and every path on its own is valid, lies in that application and
   forces nothing.
   */
  lemma FocusedIff(c: Config, records: seq<ChangeRecord>, root: string)
    ensures Choose(c, records) == ChooseFocused(root)
        <==> && PathsOf(records) != [] && (forall r :: r in records ==> r.ordinary)
             && (forall q :: q in PathsOf(records) ==> PathIsFocused(c, q, root))
  {
    var paths := PathsOf(records);
    FocusedParts(c, records, root);
    ForcingIsPointwise(c, paths);
    OneRoot(c, paths, root);
  }

  // ---- escalation ----

  lemma {:induction false} PathsOfConcat(a: seq<ChangeRecord>, b: seq<ChangeRecord>)
    ensures PathsOf(a + b) == PathsOf(a) + PathsOf(b)
  {
    if a == [] {
      assert a + b == b;
    } else {
      assert (a + b)[1..] == a[1..] + b;
      PathsOfConcat(a[1..], b);
    }
  }

  predicate HasSubstance(records: seq<ChangeRecord>) {
    PathsOf(records) != [] || exists r :: r in records && !r.ordinary
  }

  lemma FocusedSplits(c: Config, a: seq<ChangeRecord>, b: seq<ChangeRecord>, root: string)
    requires Choose(c, a + b) == ChooseFocused(root)
    ensures HasSubstance(a) ==> Choose(c, a) == ChooseFocused(root)
    ensures !HasSubstance(a) ==> Choose(c, b) == ChooseFocused(root)
  {
    PathsOfConcat(a, b);
    FocusedIff(c, a + b, root);
    FocusedIff(c, a, root);
    FocusedIff(c, b, root);
    assert forall r :: r in a ==> r in a + b;
    assert forall r :: r in b ==> r in a + b;
    assert HasSubstance(a) ==> PathsOf(a) != [];
    assert !HasSubstance(a) ==> PathsOf(a) + PathsOf(b) == PathsOf(b);
  }

  /** Records that carry a path or an unordinary mode and need the full profile keep needing it. */
  lemma EscalationIsMonotone(c: Config, a: seq<ChangeRecord>, b: seq<ChangeRecord>)
    requires Choose(c, a).ChooseFull? && HasSubstance(a)
    ensures Choose(c, a + b).ChooseFull?
  {
    if Choose(c, a + b).ChooseFocused? { FocusedSplits(c, a, b, Choose(c, a + b).root); }
  }

  /** Records without substance, the empty list among them, add nothing to the records that follow. */
  lemma EmptyRecordsAreNeutral(c: Config, a: seq<ChangeRecord>, b: seq<ChangeRecord>, root: string)
    requires !HasSubstance(a)
    ensures Choose(c, a).ChooseFull?
    ensures Choose(c, a + b) == ChooseFocused(root) <==> Choose(c, b) == ChooseFocused(root)
  {
    PathsOfConcat(a, b);
    if Choose(c, a).ChooseFocused? { FocusedIff(c, a, Choose(c, a).root); assert false; }
    if Choose(c, a + b) == ChooseFocused(root) { FocusedSplits(c, a, b, root); }
    if Choose(c, b) == ChooseFocused(root) {
      FocusedIff(c, b, root);
      FocusedIff(c, a + b, root);
      assert [] + PathsOf(b) == PathsOf(b);
    }
  }

  predicate NeedsFull(c: Config, records: seq<ChangeRecord>) {
    Choose(c, records).ChooseFull?
  }

  lemma NeutralPrefix(c: Config, a: seq<ChangeRecord>, b: seq<ChangeRecord>)
    requires !HasSubstance(a)
    ensures NeedsFull(c, a + b) <==> NeedsFull(c, b)
  {
    if !NeedsFull(c, a + b) { EmptyRecordsAreNeutral(c, a, b, Choose(c, a + b).root); }
    if !NeedsFull(c, b) { EmptyRecordsAreNeutral(c, a, b, Choose(c, b).root); }
  }

  /**
   A full choice is final exactly when its records have substance, unless the policy never
   focuses at all.
   */
  lemma EscalationIsFinalIff(c: Config, a: seq<ChangeRecord>)
    requires NeedsFull(c, a)
    ensures (forall b :: NeedsFull(c, a + b)) <==> HasSubstance(a) || forall b :: NeedsFull(c, b)
  {
    if HasSubstance(a) {
      forall b ensures NeedsFull(c, a + b) { EscalationIsMonotone(c, a, b); }
    } else {
      if forall b :: NeedsFull(c, a + b) {
        forall b ensures NeedsFull(c, b) {
          assert NeedsFull(c, a + b);
          NeutralPrefix(c, a, b);
        }
      }
      if forall b :: NeedsFull(c, b) {
        forall b ensures NeedsFull(c, a + b) { NeutralPrefix(c, a, b); }
      }
    }
  }

  /** On what the parser accepts, a full choice that is not about an empty diff is final. */
  lemma ParsedEscalationIsFinal(c: Config, data: string, b: seq<ChangeRecord>)
    requires Parsed(data).Ok? && Choose(c, Parsed(data).value).ChooseFull?
    ensures Choose(c, Parsed(data).value + b).ChooseFull?
  {
    var records := Parsed(data).value;
    PrintedOfParse(data);
    assert records[0] in records && IsRecord(records[0]);
    assert |records[0].paths| > 0;
    EscalationIsMonotone(c, records, b);
  }

  // ---- what a choice means ----

  // Stated on the records, the policy and the parts of a path, without the functions above.

  ghost predicate IsChanged(records: seq<ChangeRecord>, q: string) {
    exists r :: r in records && q in r.paths
  }

  /** Names joined by slashes, none of them empty, "." or "..". */
  ghost predicate IsProper(q: string) {
    exists names :: names != [] && q == Join(names, '/') && forall n :: n in names ==> n != "" && n != "." && n != ".." && '/' !in n
  }

  /** The path lies below the directory of the application. */
  ghost predicate LiesIn(c: Config, q: string, root: string) {
    root in c.labels && '/' !in root && exists rest :: rest != "" && q == root + "/" + rest
  }

  ghost predicate IsTemplateFile(q: string) {
    exists name, suffix, lower ::
      && IsLastName(q, name) && HasSuffix(name, suffix) && IsLowered(suffix, lower)
      && (lower == ".htm" || lower == ".html" || lower == ".jinja" || lower == ".jinja2" || lower == ".tmpl" || lower == ".tpl")
  }

  ghost predicate IsTopConfiguration(c: Config, q: string) {
    && '/' !in q
    && ((exists s, front :: s in c.suffixes && q == front + s) || (exists p, rest :: p in c.prefixes && q == p + rest))
  }

  /** A node of this id bears the risk. */
  ghost predicate NodeBears(c: Config, id: string, flag: string) {
    exists k :: 0 <= k < |c.policy.nodes| && c.policy.nodes[k].id == id && flag in c.policy.nodes[k].riskFlags
  }

  ghost predicate StartsWith(id: string, head: string) {
    exists rest :: id == head + rest
  }

  // The grounds for the full profile, in the order in which they are named.
  datatype Ground = Migration | Templates | Static | Html | TopConfiguration | Shared | Contract | Infrastructure

  const GROUNDS: seq<Ground> := [Migration, Templates, Static, Html, TopConfiguration, Shared, Contract, Infrastructure]

  /** The path by itself is such a ground. */
  ghost predicate Gives(c: Config, q: string, ground: Ground) {
    match ground
    case Migration => RiskAt(c.policy, q, "schema_migration")
    case Templates => ReasonAt(c.policy, q, Segment("templates"))
    case Static => ReasonAt(c.policy, q, Segment("static"))
    case Html => IsTemplateFile(q)
    case TopConfiguration => IsTopConfiguration(c, q)
    case Shared => exists id :: OwnerAt(c.policy, q, id) && (StartsWith(id, "shared.") || NodeBears(c, id, "auth_security_privacy"))
    case Contract => exists id :: OwnerAt(c.policy, q, id) && (id == "surface.documentation" || NodeBears(c, id, "compatibility_contract"))
    case Infrastructure =>
      exists id :: OwnerAt(c.policy, q, id)
                   && (StartsWith(id, "surface.") || NodeBears(c, id, "test_infrastructure")
                       || NodeBears(c, id, "dependency_toolchain") || NodeBears(c, id, "deployment_runtime"))
  }

  ghost predicate Names(reason: Reason, ground: Ground) {
    match ground
    case Migration => reason == MigrationChanged
    case Templates => reason == TemplateChanged
    case Static => reason == StaticChanged
    case Html => reason == HtmlChanged
    case TopConfiguration => reason == ConfigurationOrDependency
    case Shared => reason == SharedApplication
    case Contract => reason == DocumentationOrContract
    case Infrastructure => reason == ConfigurationOrDependency
  }

  ghost predicate AnyGives(c: Config, records: seq<ChangeRecord>, ground: Ground) {
    exists q :: IsChanged(records, q) && Gives(c, q, ground)
  }

  /** The first ground that some path gives. */
  ghost predicate IsFirstGround(c: Config, records: seq<ChangeRecord>, k: int) {
    0 <= k < |GROUNDS| && AnyGives(c, records, GROUNDS[k]) && forall j :: 0 <= j < k ==> !AnyGives(c, records, GROUNDS[j])
  }

  ghost predicate NoGround(c: Config, records: seq<ChangeRecord>) {
    forall ground :: !AnyGives(c, records, ground)
  }

  ghost predicate AllPlain(records: seq<ChangeRecord>) {
    (forall r :: r in records ==> r.ordinary) && forall q :: IsChanged(records, q) ==> IsProper(q)
  }

  /** Why the full profile is chosen. */
  ghost predicate IsFullReason(c: Config, records: seq<ChangeRecord>, reason: Reason) {
    match reason
    case DiffEmpty => records == []
    case UnsupportedFileMode => exists r :: r in records && !r.ordinary
    case UnknownPath =>
      && (forall r :: r in records ==> r.ordinary)
      && ((exists q :: IsChanged(records, q) && !IsProper(q))
          || (NoGround(c, records) && exists q :: IsChanged(records, q) && forall root :: !LiesIn(c, q, root)))
    case CrossApplication =>
      && records != [] && AllPlain(records) && NoGround(c, records)
      && (forall q :: IsChanged(records, q) ==> exists root :: LiesIn(c, q, root))
      && ((forall q :: !IsChanged(records, q))
          || exists p, q, a, b :: IsChanged(records, p) && IsChanged(records, q) && LiesIn(c, p, a) && LiesIn(c, q, b) && a != b)
    case _ => records != [] && AllPlain(records) && exists k :: IsFirstGround(c, records, k) && Names(reason, GROUNDS[k])
  }

  /** Why one application is chosen. */
  ghost predicate IsFocusedOn(c: Config, records: seq<ChangeRecord>, root: string) {
    && AllPlain(records) && NoGround(c, records)
    && (exists q :: IsChanged(records, q)) && forall q :: IsChanged(records, q) ==> LiesIn(c, q, root)
  }

  lemma {:induction false} PathsOfIff(records: seq<ChangeRecord>, q: string)
    ensures q in PathsOf(records) <==> IsChanged(records, q)
  {
    if records != [] {
      PathsOfIff(records[1..], q);
      assert forall r :: r in records <==> r == records[0] || r in records[1..];
    }
  }

  lemma ProperIff(q: string)
    ensures IsRepositoryPath(q) <==> IsProper(q)
  {
    var pieces := Split(q, '/');
    SplitPieces(q, '/');
    if names :| names != [] && q == Join(names, '/') && forall n :: n in names ==> n != "" && n != "." && n != ".." && '/' !in n {
      SplitJoin(names, '/');
      assert names[0] in names && q[0] == names[0][0];
    }
  }

  lemma MappedIff(c: Config, q: string, root: string)
    ensures MappedRoot(c, q) == Some(root) <==> LiesIn(c, q, root)
  {
    if LiesIn(c, q, root) {
      var rest :| rest != "" && q == root + "/" + rest;
      BeforeSeparator(root, '/', rest);
    }
    if MappedRoot(c, q) == Some(root) {
      var rest := After(q, '/');
      SlashIsThere(q);
      assert q == q[..|root|] + [q[|root|]] + q[|root| + 1..];
      assert q == root + "/" + rest;
    }
  }

  lemma SlashIsThere(q: string)
    requires '/' in q
    ensures |Before(q, '/')| < |q|
  {
    assert q[..|q|] == q;
  }

  lemma TemplateIff(q: string)
    ensures IsTemplate(q) <==> IsTemplateFile(q)
  {
    var name := Name(q);
    LastNameIs(q, name);
    SuffixIff(name, Suffix(name));
    LowerIs(Suffix(name));
    if IsTemplateFile(q) {
      var n, suffix, lower :|
        && IsLastName(q, n) && HasSuffix(n, suffix) && IsLowered(suffix, lower)
        && (lower == ".htm" || lower == ".html" || lower == ".jinja" || lower == ".jinja2" || lower == ".tmpl" || lower == ".tpl");
      LastNameIs(q, n);
      SuffixIff(n, suffix);
      LowerIff(suffix, lower);
    }
  }

  lemma TopConfigurationIff(c: Config, q: string)
    ensures IsRootConfiguration(c, q) <==> IsTopConfiguration(c, q)
  {
    if s :| s in c.suffixes && EndsWith(q, s) { assert q == q[..|q| - |s|] + s; }
    if s, front :| s in c.suffixes && q == front + s { assert q[|q| - |s|..] == s; }
    if p :| p in c.prefixes && p <= q { assert q == p + q[|p|..]; }
  }

  lemma OwnerForcesIff(c: Config, id: string)
    ensures IsShared(c.policy, id) <==> StartsWith(id, "shared.") || NodeBears(c, id, "auth_security_privacy")
    ensures IsContract(c.policy, id) <==> id == "surface.documentation" || NodeBears(c, id, "compatibility_contract")
    ensures IsInfrastructure(c.policy, id)
       <==> StartsWith(id, "surface.") || NodeBears(c, id, "test_infrastructure")
            || NodeBears(c, id, "dependency_toolchain") || NodeBears(c, id, "deployment_runtime")
  {
    HeadIff(id, "shared.");
    HeadIff(id, "surface.");
  }

  lemma HeadIff(id: string, head: string)
    ensures head <= id <==> StartsWith(id, head)
  {
    if head <= id { assert id == head + id[|head|..]; }
  }

  lemma SharedMeans(c: Config, q: string)
    ensures (exists id :: OwnerAt(c.policy, q, id) && IsShared(c.policy, id)) <==> Gives(c, q, Shared)
    ensures (exists id :: OwnerAt(c.policy, q, id) && IsContract(c.policy, id)) <==> Gives(c, q, Contract)
    ensures (exists id :: OwnerAt(c.policy, q, id) && IsInfrastructure(c.policy, id)) <==> Gives(c, q, Infrastructure)
  {
    forall id ensures IsShared(c.policy, id) <==> StartsWith(id, "shared.") || NodeBears(c, id, "auth_security_privacy") { OwnerForcesIff(c, id); }
    forall id ensures IsContract(c.policy, id) <==> id == "surface.documentation" || NodeBears(c, id, "compatibility_contract") {
      OwnerForcesIff(c, id);
    }
    forall id ensures IsInfrastructure(c.policy, id)
                      <==> StartsWith(id, "surface.") || NodeBears(c, id, "test_infrastructure")
                           || NodeBears(c, id, "dependency_toolchain") || NodeBears(c, id, "deployment_runtime")
    {
      OwnerForcesIff(c, id);
    }
  }

  lemma OwnerGroundIff(c: Config, records: seq<ChangeRecord>)
    ensures var owners := DirectOf(c.policy, PathsOf(records)).owners;
            && ((exists id :: id in owners && IsShared(c.policy, id)) <==> AnyGives(c, records, Shared))
            && ((exists id :: id in owners && IsContract(c.policy, id)) <==> AnyGives(c, records, Contract))
            && ((exists id :: id in owners && IsInfrastructure(c.policy, id)) <==> AnyGives(c, records, Infrastructure))
  {
    var paths := PathsOf(records);
    OwnersMean(c.policy, paths);
    forall q ensures q in paths <==> IsChanged(records, q) { PathsOfIff(records, q); }
    forall q ensures (exists id :: OwnerAt(c.policy, q, id) && IsShared(c.policy, id)) <==> Gives(c, q, Shared) { SharedMeans(c, q); }
    forall q ensures (exists id :: OwnerAt(c.policy, q, id) && IsContract(c.policy, id)) <==> Gives(c, q, Contract) { SharedMeans(c, q); }
    forall q ensures (exists id :: OwnerAt(c.policy, q, id) && IsInfrastructure(c.policy, id)) <==> Gives(c, q, Infrastructure) {
      SharedMeans(c, q);
    }
  }

  lemma RiskIn(c: Config, records: seq<ChangeRecord>, flag: string)
    ensures flag in DirectOf(c.policy, PathsOf(records)).risks <==> exists q :: IsChanged(records, q) && RiskAt(c.policy, q, flag)
  {
    RisksMean(c.policy, PathsOf(records));
    forall q ensures q in PathsOf(records) <==> IsChanged(records, q) { PathsOfIff(records, q); }
  }

  lemma RiskGroundIff(c: Config, records: seq<ChangeRecord>)
    ensures "schema_migration" in DirectOf(c.policy, PathsOf(records)).risks <==> AnyGives(c, records, Migration)
  {
    RiskIn(c, records, "schema_migration");
    forall q ensures Gives(c, q, Migration) <==> RiskAt(c.policy, q, "schema_migration") {}
  }

  lemma ReasonIn(c: Config, records: seq<ChangeRecord>, reason: RenderReason)
    ensures reason in DirectOf(c.policy, PathsOf(records)).reasons <==> exists q :: IsChanged(records, q) && ReasonAt(c.policy, q, reason)
  {
    ReasonsMean(c.policy, PathsOf(records));
    forall q ensures q in PathsOf(records) <==> IsChanged(records, q) { PathsOfIff(records, q); }
  }

  lemma RenderGroundIff(c: Config, records: seq<ChangeRecord>)
    ensures Segment("templates") in DirectOf(c.policy, PathsOf(records)).reasons <==> AnyGives(c, records, Templates)
    ensures Segment("static") in DirectOf(c.policy, PathsOf(records)).reasons <==> AnyGives(c, records, Static)
  {
    ReasonIn(c, records, Segment("templates"));
    ReasonIn(c, records, Segment("static"));
    forall q ensures Gives(c, q, Templates) <==> ReasonAt(c.policy, q, Segment("templates")) {}
    forall q ensures Gives(c, q, Static) <==> ReasonAt(c.policy, q, Segment("static")) {}
  }

  lemma FileGroundIff(c: Config, records: seq<ChangeRecord>)
    ensures (exists q :: q in PathsOf(records) && IsTemplate(q)) <==> AnyGives(c, records, Html)
    ensures (exists q :: q in PathsOf(records) && IsRootConfiguration(c, q)) <==> AnyGives(c, records, TopConfiguration)
  {
    forall q ensures q in PathsOf(records) <==> IsChanged(records, q) { PathsOfIff(records, q); }
    forall q ensures IsTemplate(q) <==> Gives(c, q, Html) { TemplateIff(q); }
    forall q ensures IsRootConfiguration(c, q) <==> Gives(c, q, TopConfiguration) { TopConfigurationIff(c, q); }
  }

  lemma FirstReasonIs(met: seq<bool>)
    requires |met| == 8
    ensures match FirstReason(met)
            case None => forall k :: 0 <= k < 8 ==> !met[k]
            case Some(reason) => exists k :: 0 <= k < 8 && met[k] && Names(reason, GROUNDS[k]) && forall j :: 0 <= j < k ==> !met[j]
  {
    var r := FirstReason(met);
    if met[0] { assert Names(r.value, GROUNDS[0]); }
    else if met[1] { assert Names(r.value, GROUNDS[1]); }
    else if met[2] { assert Names(r.value, GROUNDS[2]); }
    else if met[3] { assert Names(r.value, GROUNDS[3]); }
    else if met[4] { assert Names(r.value, GROUNDS[4]); }
    else if met[5] { assert Names(r.value, GROUNDS[5]); }
    else if met[6] { assert Names(r.value, GROUNDS[6]); }
    else if met[7] { assert Names(r.value, GROUNDS[7]); }
  }

  lemma TestsMean(c: Config, records: seq<ChangeRecord>, met: seq<bool>, k: nat)
    requires met == Tests(c, DirectOf(c.policy, PathsOf(records)), PathsOf(records)) && k < 8
    ensures met[k] <==> AnyGives(c, records, GROUNDS[k])
  {
    if k == 0 { RiskGroundIff(c, records); }
    else if k <= 2 { RenderGroundIff(c, records); }
    else if k <= 4 { FileGroundIff(c, records); }
    else { OwnerGroundIff(c, records); }
  }

  lemma GroundHasPlace(ground: Ground)
    ensures exists k :: 0 <= k < |GROUNDS| && GROUNDS[k] == ground
  {
    match ground
    case Migration => assert GROUNDS[0] == ground;
    case Templates => assert GROUNDS[1] == ground;
    case Static => assert GROUNDS[2] == ground;
    case Html => assert GROUNDS[3] == ground;
    case TopConfiguration => assert GROUNDS[4] == ground;
    case Shared => assert GROUNDS[5] == ground;
    case Contract => assert GROUNDS[6] == ground;
    case Infrastructure => assert GROUNDS[7] == ground;
  }

  /** The reason for the full profile is that of the first ground. */
  lemma GroundsMean(c: Config, records: seq<ChangeRecord>)
    ensures match ForceFullReason(c, PathsOf(records))
            case None => NoGround(c, records)
            case Some(reason) => exists k :: IsFirstGround(c, records, k) && Names(reason, GROUNDS[k])
  {
    var met := Tests(c, DirectOf(c.policy, PathsOf(records)), PathsOf(records));
    forall k: nat | k < 8 ensures met[k] <==> AnyGives(c, records, GROUNDS[k]) { TestsMean(c, records, met, k); }
    FirstReasonIs(met);
    if FirstReason(met).None? {
      forall ground ensures !AnyGives(c, records, ground) { GroundHasPlace(ground); }
    }
  }

  lemma PathsMean(c: Config, records: seq<ChangeRecord>)
    ensures forall q :: q in PathsOf(records) <==> IsChanged(records, q)
    ensures forall q :: IsRepositoryPath(q) <==> IsProper(q)
    ensures forall q, root :: MappedRoot(c, q) == Some(root) <==> LiesIn(c, q, root)
  {
    forall q ensures q in PathsOf(records) <==> IsChanged(records, q) { PathsOfIff(records, q); }
    forall q ensures IsRepositoryPath(q) <==> IsProper(q) { ProperIff(q); }
    forall q, root ensures MappedRoot(c, q) == Some(root) <==> LiesIn(c, q, root) { MappedIff(c, q, root); }
  }

  lemma FocusedMeans(c: Config, records: seq<ChangeRecord>, root: string)
    requires Choose(c, records) == ChooseFocused(root)
    ensures IsFocusedOn(c, records, root)
  {
    PathsMean(c, records);
    GroundsMean(c, records);
    FocusedParts(c, records, root);
    FocusedIff(c, records, root);
    assert PathsOf(records)[0] in PathsOf(records);
  }

  lemma PlacesMean(c: Config, records: seq<ChangeRecord>)
    requires records != [] && AllPlain(records) && NoGround(c, records) && ForceFullReason(c, PathsOf(records)).None?
    requires Choose(c, records).ChooseFull?
    ensures IsFullReason(c, records, Choose(c, records).reason)
  {
    PathsMean(c, records);
    var paths := PathsOf(records);
    if q :| q in paths && MappedRoot(c, q).None? {
      assert Choose(c, records) == ChooseFull(UnknownPath);
      assert IsChanged(records, q) && forall root :: !LiesIn(c, q, root);
    } else {
      assert Choose(c, records) == ChooseFull(CrossApplication);
      forall q | IsChanged(records, q) ensures exists root :: LiesIn(c, q, root) { assert LiesIn(c, q, MappedRoot(c, q).value); }
      if paths != [] {
        var p, q := SeveralRoots(c, paths);
        assert LiesIn(c, p, MappedRoot(c, p).value) && LiesIn(c, q, MappedRoot(c, q).value);
      }
    }
  }

  lemma ForcedMeans(c: Config, records: seq<ChangeRecord>, reason: Reason)
    requires records != [] && AllPlain(records) && ForceFullReason(c, PathsOf(records)) == Some(reason)
    ensures IsFullReason(c, records, reason)
  {
    GroundsMean(c, records);
  }

  lemma ImproperMeans(c: Config, records: seq<ChangeRecord>, q: string)
    requires records != [] && (forall r :: r in records ==> r.ordinary) && q in PathsOf(records) && !IsRepositoryPath(q)
    ensures Choose(c, records) == ChooseFull(UnknownPath) && IsFullReason(c, records, UnknownPath)
  {
    PathsMean(c, records);
    assert IsChanged(records, q) && !IsProper(q);
  }

  lemma ProperMeans(c: Config, records: seq<ChangeRecord>)
    requires records != [] && (forall r :: r in records ==> r.ordinary) && (forall q :: q in PathsOf(records) ==> IsRepositoryPath(q))
    requires Choose(c, records).ChooseFull?
    ensures IsFullReason(c, records, Choose(c, records).reason)
  {
    PathsMean(c, records);
    assert AllPlain(records);
    if ForceFullReason(c, PathsOf(records)).Some? {
      ForcedMeans(c, records, ForceFullReason(c, PathsOf(records)).value);
    } else {
      GroundsMean(c, records);
      PlacesMean(c, records);
    }
  }

  lemma FullMeans(c: Config, records: seq<ChangeRecord>)
    requires Choose(c, records).ChooseFull?
    ensures IsFullReason(c, records, Choose(c, records).reason)
  {
    if records != [] && forall r :: r in records ==> r.ordinary {
      if q :| q in PathsOf(records) && !IsRepositoryPath(q) { ImproperMeans(c, records, q); } else { ProperMeans(c, records); }
    }
  }

  /** Which profile is chosen, why, and for which application. */
  lemma ChoiceMeans(c: Config, records: seq<ChangeRecord>)
    ensures match Choose(c, records)
            case ChooseFull(reason) => IsFullReason(c, records, reason)
            case ChooseFocused(root) => IsFocusedOn(c, records, root)
  {
    match Choose(c, records)
    case ChooseFocused(root) => FocusedMeans(c, records, root);
    case ChooseFull(_) => FullMeans(c, records);
  }

  /** When all of several paths lie somewhere, and not all in one place, two lie in different places. */
  lemma SeveralRoots(c: Config, paths: seq<string>) returns (p: string, q: string)
    requires paths != [] && (forall q :: q in paths ==> MappedRoot(c, q).Some?) && |SortedSet(MappedRoots(c, paths))| != 1
    ensures p in paths && q in paths && MappedRoot(c, p) != MappedRoot(c, q)
  {
    p := paths[0];
    OneRoot(c, paths, MappedRoot(c, p).value);
    q :| q in paths && MappedRoot(c, q) != MappedRoot(c, p);
  }

  /** What the validator accepts: known labels in order, and a profile that fits the reason, the event and the commits. */
  lemma ValidIff(c: Config, s: Selection)
    ensures IsValid(c, s)
       <==> && (s.event == Push || s.event == WorkflowDispatch)
            && (forall id :: s.base == Some(id) || s.head == Some(id) ==> c.isSha(id))
            && Increasing(s.roots) && (forall r :: r in s.roots ==> r in c.labels)
            && Increasing(s.labels) && (forall l :: l in s.labels ==> exists r :: r in c.labels && l in c.labels[r])
            && (match s.profile
                case Full => s.labels == [] && s.reason != SingleApplication
                case Focused => && s.reason == SingleApplication && s.base != None && s.head != None
                                && exists root :: s.roots == [root] && root in c.labels && s.labels == c.labels[root])
            && (s.reason == ManualDispatch ==> s.event == WorkflowDispatch && s.profile == Full && s.base == None)
  {
    IncreasingIsSortedSet(s.roots);
    IncreasingIsSortedSet(s.labels);
    if |s.roots| == 1 { assert s.roots == [s.roots[0]]; }
  }

  /** What a selection records of a change besides its profile. */
  lemma ClassifiedMeans(c: Config, records: seq<ChangeRecord>, event: Event, base: string, head: string)
    requires Classify(c, records, event, base, head).Some?
    ensures var s := Classify(c, records, event, base, head).value;
            && s.event == event && s.base == Some(base) && s.head == Some(head) && s.changedPaths == |PathsOf(records)|
            && match s.profile
               case Full => && IsFullReason(c, records, s.reason) && s.labels == [] && Increasing(s.roots)
                            && forall root :: root in s.roots <==> exists q :: IsChanged(records, q) && LiesIn(c, q, root)
               case Focused => && s.reason == SingleApplication
                               && exists root :: root in c.labels && IsFocusedOn(c, records, root) && s.roots == [root] && s.labels == c.labels[root]
  {
    ChoiceMeans(c, records);
    RootIsMapped(c, PathsOf(records));
    SortedSetIs(MappedRoots(c, PathsOf(records)));
    PathsMean(c, records);
  }
}
