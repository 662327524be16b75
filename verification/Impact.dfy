/**
 What a set of changed paths affects under an ownership policy.

 The impact of a path list is the join of the impacts of its paths, so the order
 and the repetition of paths do not matter.
 */
module Impact {
  import opened Ownership
  import opened Reachability
  import opened Text

  datatype Rules = Rules(migrationSegments: set<string>, fixtureSegments: set<string>,
                         testBasenames: set<string>, testSegments: set<string>,
                         policyDocuments: set<string>, policyPrefixes: set<string>,
                         extensions: set<string>, basenames: set<string>, segments: set<string>)

  // The owner nodes in order, every node's downstream edges and test labels, and the rules.
  datatype Policy = Policy(nodes: seq<Node>, graph: Graph, labels: map<string, set<string>>, rules: Rules)

  ghost predicate PolicyOk(p: Policy) {
    Closed(p.graph) && forall n :: n in p.nodes ==> n.id in p.graph
  }

  // A render reason names the rule and the part of the path that met it.
  datatype RenderReason = Flag(flag: string) | Extension(suffix: string) | Basename(name: string) | Segment(segment: string)

  // What the paths alone determine; `prose` says that every path is plain documentation.
  datatype Direct = Direct(owners: set<string>, components: set<string>, risks: set<string>,
                           reasons: set<RenderReason>, unknown: set<string>, prose: bool)

  datatype Impact = Impact(owners: set<string>, downstream: set<string>, components: set<string>, testLabels: set<string>,
                           riskFlags: set<string>, renderReasons: set<RenderReason>, documentationOnly: bool,
                           unknownPaths: set<string>)

  predicate RenderImpact(i: Impact) {
    i.renderReasons != {}
  }

  // ---- one path ----

  function OwnersOf(nodes: seq<Node>, path: string): seq<Node> {
    if nodes == [] then [] else (if Owns(nodes[0], path) then [nodes[0]] else []) + OwnersOf(nodes[1..], path)
  }

  function LowerChar(c: char): char {
    if 'A' <= c <= 'Z' then (c as int + 32) as char else c
  }

  function Lower(s: string): string {
    if s == [] then [] else [LowerChar(s[0])] + Lower(s[1..])
  }

  /** The text from the last dot on, or nothing. */
  function FromLastDot(s: string): string {
    if s == [] then [] else
    var rest := FromLastDot(s[1..]);
    if rest != [] then rest else if s[0] == '.' then s else []
  }

  /** `PurePosixPath(name).suffix`: a leading dot or a trailing dot makes no suffix. */
  function Suffix(name: string): string {
    var tail := FromLastDot(name);
    if |tail| <= 1 || |tail| == |name| then [] else tail
  }

  function Parts(path: string): set<string> {
    set p | p in Split(path, '/')
  }

  function Name(path: string): string {
    var pieces := Split(path, '/'); pieces[|pieces| - 1]
  }

  predicate PolicyDocument(rules: Rules, path: string) {
    path in rules.policyDocuments || exists p :: p in rules.policyPrefixes && p <= path
  }

  function PathRisks(rules: Rules, path: string): set<string> {
    (if Parts(path) * rules.migrationSegments != {} then {"schema_migration"} else {})
    + (if Parts(path) * rules.fixtureSegments != {} then {"global_fixture"} else {})
    + (if Name(path) in rules.testBasenames || Parts(path) * rules.testSegments != {} || PolicyDocument(rules, path)
       then {"test_infrastructure"} else {})
  }

  function PathReasons(rules: Rules, path: string): set<RenderReason> {
    (if Lower(Suffix(Name(path))) in rules.extensions then {Extension(Lower(Suffix(Name(path))))} else {})
    + (if Name(path) in rules.basenames then {Basename(Name(path))} else {})
    + (set s | s in Parts(path) * rules.segments :: Segment(s))
  }

  function Flags(n: Node): set<RenderReason> {
    set f | f in n.renderFlags :: Flag(f)
  }

  /** What one path contributes; a path that is invalid or not owned once contributes only its name. */
  function PathImpact(p: Policy, path: string): Direct {
    var owners := OwnersOf(p.nodes, path);
    if !ValidPath(path) || |owners| != 1 then Direct({}, {}, {}, {}, {path}, false)
    else
      var n := owners[0];
      Direct({n.id}, n.components, n.riskFlags + PathRisks(p.rules, path), Flags(n) + PathReasons(p.rules, path), {},
             n.id == DOCUMENTATION && !PolicyDocument(p.rules, path))
  }

  // ---- joining ----

  function Join2(a: Direct, b: Direct): Direct {
    Direct(a.owners + b.owners, a.components + b.components, a.risks + b.risks, a.reasons + b.reasons,
           a.unknown + b.unknown, a.prose && b.prose)
  }

  const NOTHING := Direct({}, {}, {}, {}, {}, true)

  function DirectOf(p: Policy, paths: seq<string>): Direct {
    if paths == [] then NOTHING else Join2(DirectOf(p, paths[..|paths| - 1]), PathImpact(p, paths[|paths| - 1]))
  }

  ghost function DownstreamOfAll(g: Graph, owners: set<string>): set<string> {
    set n, o | o in owners && n in g && n != o && Reaches(g, o, n) :: n
  }

  function LabelsOf(labels: map<string, set<string>>, nodes: set<string>): set<string> {
    set n, l | n in nodes && n in labels && l in labels[n] :: l
  }

  ghost function Completed(p: Policy, d: Direct, nonEmpty: bool): Impact {
    var downstream := DownstreamOfAll(p.graph, d.owners);
    Impact(d.owners, downstream, d.components, LabelsOf(p.labels, downstream), d.risks, d.reasons,
           nonEmpty && d.prose && d.unknown == {}, d.unknown)
  }

  ghost function ImpactOf(p: Policy, paths: seq<string>): Impact {
    Completed(p, DirectOf(p, paths), paths != [])
  }

  // ---- the program ----

  method DownstreamOfOwners(g: Graph, owners: set<string>) returns (downstream: set<string>)
    requires Closed(g) && owners <= g.Keys
    ensures downstream == DownstreamOfAll(g, owners)
  {
    downstream := {};
    var left := owners;
    while left != {}
      invariant left <= owners && downstream == DownstreamOfAll(g, owners - left)
      decreases left
    {
      var owner :| owner in left;
      var found := Downstream(g, owner);
      var below := set t | t in found && t != owner;
      DownstreamGrows(g, owners - left, owner);
      assert owners - (left - {owner}) == (owners - left) + {owner};
      assert below == DownstreamOfAll(g, {owner});
      downstream := downstream + below;
      left := left - {owner};
    }
    assert owners - {} == owners;
  }

  lemma DownstreamGrows(g: Graph, owners: set<string>, owner: string)
    ensures DownstreamOfAll(g, owners + {owner}) == DownstreamOfAll(g, owners) + DownstreamOfAll(g, {owner})
  {
  }

  method ImpactForPaths(p: Policy, paths: seq<string>) returns (r: Impact)
    requires PolicyOk(p)
    ensures r == ImpactOf(p, paths)
  {
    var owners: set<string>, components: set<string>, unknown: set<string> := {}, {}, {};
    var risks: set<string>, reasons: set<RenderReason> := {}, {};
    var documentationOnly := paths != [];
    for i := 0 to |paths|
      invariant var d := DirectOf(p, paths[..i]);
                && owners == d.owners && components == d.components && risks == d.risks
                && reasons == d.reasons && unknown == d.unknown
                && (documentationOnly <==> paths != [] && d.prose)
      invariant owners <= p.graph.Keys
    {
      var path := paths[i];
      assert paths[..i + 1][..i] == paths[..i];
      if !ValidPath(path) {
        unknown := unknown + {path};
        documentationOnly := false;
      } else {
        var matches := OwnersOf(p.nodes, path);
        if |matches| != 1 {
          unknown := unknown + {path};
          documentationOnly := false;
        } else {
          var owner := matches[0];
          OwnersAreNodes(p.nodes, path);
          owners, components := owners + {owner.id}, components + owner.components;
          risks := risks + (owner.riskFlags + PathRisks(p.rules, path));
          reasons := reasons + (Flags(owner) + PathReasons(p.rules, path));
          if owner.id != DOCUMENTATION || PolicyDocument(p.rules, path) {
            documentationOnly := false;
          }
        }
      }
    }
    assert paths[..|paths|] == paths;
    var downstream := DownstreamOfOwners(p.graph, owners);
    r := Impact(owners, downstream, components, LabelsOf(p.labels, downstream), risks, reasons,
                documentationOnly && unknown == {}, unknown);
  }

  lemma {:induction false} OwnersAreNodes(nodes: seq<Node>, path: string)
    ensures forall n :: n in OwnersOf(nodes, path) ==> n in nodes && Owns(n, path)
  {
    if nodes != [] { OwnersAreNodes(nodes[1..], path); }
  }

  /** In an accepted policy a path is unknown only when it is invalid or nobody owns it. */
  lemma {:induction false} AcceptedOwnerIsUnique(nodes: seq<Node>, path: string)
    requires Accepted(nodes)
    ensures |OwnersOf(nodes, path)| <= 1
    ensures |OwnersOf(nodes, path)| == 1 <==> exists n :: n in nodes && Owns(n, path)
  {
    forall i, j | 0 <= i < j < |nodes| ensures !(Owns(nodes[i], path) && Owns(nodes[j], path)) {
      if Owns(nodes[i], path) && Owns(nodes[j], path) { AtMostOneOwner(nodes, path, i, j); }
    }
    OwnersCount(nodes, path);
  }

  lemma {:induction false} OwnersCount(nodes: seq<Node>, path: string)
    requires forall i, j :: 0 <= i < j < |nodes| ==> !(Owns(nodes[i], path) && Owns(nodes[j], path))
    ensures |OwnersOf(nodes, path)| == if exists n :: n in nodes && Owns(n, path) then 1 else 0
  {
    if nodes != [] {
      var rest := nodes[1..];
      forall i, j | 0 <= i < j < |rest| ensures !(Owns(rest[i], path) && Owns(rest[j], path)) {
        assert rest[i] == nodes[i + 1] && rest[j] == nodes[j + 1];
      }
      OwnersCount(rest, path);
      if Owns(nodes[0], path) {
        assert nodes[0] in nodes;
        forall n | n in rest ensures !Owns(n, path) {
          var k :| 0 <= k < |rest| && rest[k] == n;
          assert nodes[k + 1] == n;
        }
      } else {
        assert forall n :: n in nodes && Owns(n, path) <==> n in rest && Owns(n, path);
      }
    }
  }

  // ---- a homomorphism ----

  lemma Join2Laws(a: Direct, b: Direct, c: Direct)
    ensures Join2(Join2(a, b), c) == Join2(a, Join2(b, c)) && Join2(a, NOTHING) == a
  {
  }

  lemma {:induction false} DirectOfConcat(p: Policy, a: seq<string>, b: seq<string>)
    ensures DirectOf(p, a + b) == Join2(DirectOf(p, a), DirectOf(p, b))
  {
    if b == [] {
      assert a + b == a;
      Join2Laws(DirectOf(p, a), NOTHING, NOTHING);
    } else {
      DirectOfConcat(p, a, b[..|b| - 1]);
      ConcatStep(p, a, b);
    }
  }

  lemma ConcatStep(p: Policy, a: seq<string>, b: seq<string>)
    requires b != [] && DirectOf(p, a + b[..|b| - 1]) == Join2(DirectOf(p, a), DirectOf(p, b[..|b| - 1]))
    ensures DirectOf(p, a + b) == Join2(DirectOf(p, a), DirectOf(p, b))
  {
    var older, last := b[..|b| - 1], b[|b| - 1];
    assert (a + b)[..|a + b| - 1] == a + older && (a + b)[|a + b| - 1] == last;
    Join2Laws(DirectOf(p, a), DirectOf(p, older), PathImpact(p, last));
  }

  lemma DownstreamOfUnion(g: Graph, a: set<string>, b: set<string>)
    ensures DownstreamOfAll(g, a + b) == DownstreamOfAll(g, a) + DownstreamOfAll(g, b)
  {
  }

  lemma LabelsOfUnion(labels: map<string, set<string>>, a: set<string>, b: set<string>)
    ensures LabelsOf(labels, a + b) == LabelsOf(labels, a) + LabelsOf(labels, b)
  {
  }

  ghost function JoinImpacts(a: Impact, b: Impact): Impact {
    Impact(a.owners + b.owners, a.downstream + b.downstream, a.components + b.components, a.testLabels + b.testLabels,
           a.riskFlags + b.riskFlags, a.renderReasons + b.renderReasons, a.documentationOnly && b.documentationOnly,
           a.unknownPaths + b.unknownPaths)
  }

  /** The impact of two non-empty path lists together is the join of their impacts. */
  lemma ImpactOfConcat(p: Policy, a: seq<string>, b: seq<string>)
    ensures a != [] && b != [] ==> ImpactOf(p, a + b) == JoinImpacts(ImpactOf(p, a), ImpactOf(p, b))
    ensures ImpactOf(p, a + b).(documentationOnly := false)
         == JoinImpacts(ImpactOf(p, a), ImpactOf(p, b)).(documentationOnly := false)
  {
    DirectOfConcat(p, a, b);
    DownstreamOfUnion(p.graph, DirectOf(p, a).owners, DirectOf(p, b).owners);
    LabelsOfUnion(p.labels, DownstreamOfAll(p.graph, DirectOf(p, a).owners), DownstreamOfAll(p.graph, DirectOf(p, b).owners));
  }

  /** What is in the impact of a list is in the impact of one of its paths. */
  lemma {:induction false} DirectIsPointwise(p: Policy, paths: seq<string>)
    ensures var d := DirectOf(p, paths);
            && (forall x :: x in d.owners <==> exists q :: q in paths && x in PathImpact(p, q).owners)
            && (forall x :: x in d.components <==> exists q :: q in paths && x in PathImpact(p, q).components)
            && (forall x :: x in d.risks <==> exists q :: q in paths && x in PathImpact(p, q).risks)
            && (forall x :: x in d.reasons <==> exists q :: q in paths && x in PathImpact(p, q).reasons)
            && (forall x :: x in d.unknown <==> exists q :: q in paths && x in PathImpact(p, q).unknown)
            && (d.prose <==> forall q :: q in paths ==> PathImpact(p, q).prose)
  {
    if paths != [] {
      var older, q0 := paths[..|paths| - 1], paths[|paths| - 1];
      DirectIsPointwise(p, older);
      assert forall q :: q in paths <==> q in older || q == q0;
    }
  }

  /** The order of the paths and their repetition do not matter. */
  lemma ImpactDependsOnTheSet(p: Policy, a: seq<string>, b: seq<string>)
    requires forall q :: q in a <==> q in b
    ensures ImpactOf(p, a) == ImpactOf(p, b)
  {
    DirectIsPointwise(p, a);
    DirectIsPointwise(p, b);
    assert DirectOf(p, a) == DirectOf(p, b);
    assert a == [] <==> b == [] by {
      if a != [] { assert a[0] in b; }
      if b != [] { assert b[0] in a; }
    }
  }

  /** A documentation-only impact has the documentation node as its only owner and nothing unknown. */
  lemma DocumentationOnlyMeans(p: Policy, paths: seq<string>)
    requires ImpactOf(p, paths).documentationOnly
    ensures ImpactOf(p, paths).owners == {DOCUMENTATION} && ImpactOf(p, paths).unknownPaths == {}
  {
    DirectIsPointwise(p, paths);
    assert paths[0] in paths && PathImpact(p, paths[0]).prose;
    forall x | x in ImpactOf(p, paths).owners ensures x == DOCUMENTATION {
      var q :| q in paths && x in PathImpact(p, q).owners;
      assert PathImpact(p, q).prose;
    }
    assert DOCUMENTATION in PathImpact(p, paths[0]).owners;
  }

  // ---- what an impact means ----

  // Stated on the nodes, the rules and the paths, without the functions of the first section.

  /** The path is valid, and `n` is the one node that owns it. */
  ghost predicate Belongs(p: Policy, path: string, n: Node) {
    ValidPath(path)
    && exists k :: 0 <= k < |p.nodes| && p.nodes[k] == n && Owns(n, path)
                   && forall j :: 0 <= j < |p.nodes| && j != k ==> !Owns(p.nodes[j], path)
  }

  ghost predicate IsLastName(path: string, name: string) {
    exists folders :: Split(path, '/') == folders + [name]
  }

  ghost predicate IsLastDot(name: string, k: int) {
    0 <= k < |name| && name[k] == '.' && '.' !in name[k + 1..]
  }

  /** The suffix is the name from its last dot on, and empty when that dot is missing, first or last. */
  ghost predicate HasSuffix(name: string, suffix: string) {
    || (exists k :: 0 < k < |name| - 1 && IsLastDot(name, k) && suffix == name[k..])
    || (suffix == [] && forall k :: 0 < k < |name| - 1 ==> !IsLastDot(name, k))
  }

  ghost predicate IsLowered(s: string, lower: string) {
    |lower| == |s| && forall k :: 0 <= k < |s| ==> lower[k] == if 'A' <= s[k] <= 'Z' then (s[k] as int + 32) as char else s[k]
  }

  ghost predicate IsPolicyDocument(rules: Rules, path: string) {
    path in rules.policyDocuments || exists q, rest :: q in rules.policyPrefixes && path == q + rest
  }

  ghost predicate HasSegment(path: string, segments: set<string>) {
    exists segment :: segment in Split(path, '/') && segment in segments
  }

  /** The path itself bears this risk. */
  ghost predicate BearsRisk(rules: Rules, path: string, flag: string) {
    || (flag == "schema_migration" && HasSegment(path, rules.migrationSegments))
    || (flag == "global_fixture" && HasSegment(path, rules.fixtureSegments))
    || (flag == "test_infrastructure"
        && (HasSegment(path, rules.testSegments) || IsPolicyDocument(rules, path)
            || exists name :: IsLastName(path, name) && name in rules.testBasenames))
  }

  /** The path by itself is a reason to render. */
  ghost predicate IsReason(rules: Rules, path: string, reason: RenderReason) {
    match reason
    case Flag(_) => false
    case Extension(lower) =>
      lower in rules.extensions
      && exists name, suffix :: IsLastName(path, name) && HasSuffix(name, suffix) && IsLowered(suffix, lower)
    case Basename(name) => name in rules.basenames && IsLastName(path, name)
    case Segment(segment) => segment in rules.segments && segment in Split(path, '/')
  }

  ghost predicate OwnerAt(p: Policy, path: string, x: string) {
    exists n :: Belongs(p, path, n) && x == n.id
  }

  ghost predicate ComponentAt(p: Policy, path: string, x: string) {
    exists n :: Belongs(p, path, n) && x in n.components
  }

  ghost predicate RiskAt(p: Policy, path: string, flag: string) {
    exists n :: Belongs(p, path, n) && (flag in n.riskFlags || BearsRisk(p.rules, path, flag))
  }

  ghost predicate ReasonAt(p: Policy, path: string, reason: RenderReason) {
    exists n :: Belongs(p, path, n) && (IsReason(p.rules, path, reason) || (reason.Flag? && reason.flag in n.renderFlags))
  }

  ghost predicate IsUnknown(p: Policy, path: string) {
    forall n :: !Belongs(p, path, n)
  }

  /** Documentation that is no policy document. */
  ghost predicate IsProse(p: Policy, path: string) {
    !IsPolicyDocument(p.rules, path) && exists n :: Belongs(p, path, n) && n.id == DOCUMENTATION
  }

  lemma LastNameIs(path: string, name: string)
    ensures IsLastName(path, name) <==> name == Name(path)
  {
    var pieces := Split(path, '/');
    assert pieces == pieces[..|pieces| - 1] + [Name(path)];
  }

  lemma {:induction false} FromLastDotIs(s: string)
    ensures var r := FromLastDot(s);
            |r| <= |s| && r == s[|s| - |r|..] && (r == [] <==> '.' !in s) && (r != [] ==> r[0] == '.' && '.' !in r[1..])
  {
    if s != [] { FromLastDotIs(s[1..]); }
  }

  lemma SuffixIff(name: string, suffix: string)
    ensures HasSuffix(name, suffix) <==> suffix == Suffix(name)
  {
    FromLastDotIs(name);
    var tail := FromLastDot(name);
    if tail != [] {
      var k := |name| - |tail|;
      assert name[k..] == tail && name[k + 1..] == tail[1..];
      assert IsLastDot(name, k);
      forall j | IsLastDot(name, j) ensures j == k { DotIsLast(name, j, k); }
    }
  }

  lemma DotIsLast(name: string, j: nat, k: nat)
    requires IsLastDot(name, j) && IsLastDot(name, k)
    ensures j == k
  {
    forall i | j < i < |name| ensures name[i] != '.' { assert name[j + 1..][i - j - 1] == name[i]; }
    forall i | k < i < |name| ensures name[i] != '.' { assert name[k + 1..][i - k - 1] == name[i]; }
  }

  lemma {:induction false} LowerIff(s: string, lower: string)
    ensures IsLowered(s, lower) <==> lower == Lower(s)
  {
    LowerIs(s);
    if IsLowered(s, lower) { assert lower == Lower(s); }
  }

  lemma {:induction false} LowerIs(s: string)
    ensures IsLowered(s, Lower(s))
  {
    if s != [] { LowerIs(s[1..]); }
  }

  lemma PolicyDocumentIff(rules: Rules, path: string)
    ensures PolicyDocument(rules, path) <==> IsPolicyDocument(rules, path)
  {
    if q :| q in rules.policyPrefixes && q <= path { assert path == q + path[|q|..]; }
  }

  lemma SegmentIff(path: string, segments: set<string>)
    ensures Parts(path) * segments != {} <==> HasSegment(path, segments)
  {
    if segment :| segment in Split(path, '/') && segment in segments { assert segment in Parts(path) * segments; }
  }

  lemma RiskIff(rules: Rules, path: string, flag: string)
    ensures flag in PathRisks(rules, path) <==> BearsRisk(rules, path, flag)
  {
    SegmentIff(path, rules.migrationSegments);
    SegmentIff(path, rules.fixtureSegments);
    SegmentIff(path, rules.testSegments);
    PolicyDocumentIff(rules, path);
    LastNameIs(path, Name(path));
    forall name ensures IsLastName(path, name) <==> name == Name(path) { LastNameIs(path, name); }
  }

  lemma ExtensionIff(rules: Rules, path: string, lower: string)
    ensures Extension(lower) in PathReasons(rules, path) <==> IsReason(rules, path, Extension(lower))
  {
    LastNameIs(path, Name(path));
    var suffix := Suffix(Name(path));
    SuffixIff(Name(path), suffix);
    LowerIs(suffix);
    if IsReason(rules, path, Extension(lower)) {
      var name, found :| IsLastName(path, name) && HasSuffix(name, found) && IsLowered(found, lower);
      LastNameIs(path, name);
      SuffixIff(name, found);
      LowerIff(found, lower);
    }
  }

  lemma ReasonIff(rules: Rules, path: string, reason: RenderReason)
    ensures reason in PathReasons(rules, path) <==> IsReason(rules, path, reason)
  {
    match reason
    case Flag(_) =>
    case Extension(lower) => ExtensionIff(rules, path, lower);
    case Basename(name) => LastNameIs(path, name);
    case Segment(segment) =>
  }

  lemma {:induction false} OwnersOfOne(nodes: seq<Node>, path: string, k: nat)
    requires k < |nodes| && Owns(nodes[k], path) && forall j :: 0 <= j < |nodes| && j != k ==> !Owns(nodes[j], path)
    ensures OwnersOf(nodes, path) == [nodes[k]]
  {
    var rest := nodes[1..];
    assert forall j :: 0 <= j < |rest| ==> rest[j] == nodes[j + 1];
    if k == 0 {
      NobodyOwns(rest, path);
    } else {
      OwnersOfOne(rest, path, k - 1);
    }
  }

  lemma {:induction false} NobodyOwns(nodes: seq<Node>, path: string)
    requires forall j :: 0 <= j < |nodes| ==> !Owns(nodes[j], path)
    ensures OwnersOf(nodes, path) == []
  {
    if nodes != [] {
      assert forall j :: 0 <= j < |nodes[1..]| ==> nodes[1..][j] == nodes[j + 1];
      NobodyOwns(nodes[1..], path);
    }
  }

  lemma {:induction false} TheOneOwner(nodes: seq<Node>, path: string) returns (k: nat)
    requires |OwnersOf(nodes, path)| == 1
    ensures k < |nodes| && nodes[k] == OwnersOf(nodes, path)[0] && Owns(nodes[k], path)
    ensures forall j :: 0 <= j < |nodes| && j != k ==> !Owns(nodes[j], path)
  {
    var rest := nodes[1..];
    assert forall j :: 0 <= j < |rest| ==> rest[j] == nodes[j + 1];
    if Owns(nodes[0], path) {
      k := 0;
      assert OwnersOf(nodes, path) == [nodes[0]] + OwnersOf(rest, path);
      NoOwners(rest, path);
    } else {
      assert OwnersOf(nodes, path) == OwnersOf(rest, path);
      var j := TheOneOwner(rest, path);
      k := j + 1;
    }
  }

  lemma {:induction false} NoOwners(nodes: seq<Node>, path: string)
    requires OwnersOf(nodes, path) == []
    ensures forall j :: 0 <= j < |nodes| ==> !Owns(nodes[j], path)
  {
    if nodes != [] {
      assert forall j :: 0 <= j < |nodes[1..]| ==> nodes[1..][j] == nodes[j + 1];
      NoOwners(nodes[1..], path);
    }
  }

  lemma BelongsIff(p: Policy, path: string, n: Node)
    ensures Belongs(p, path, n) <==> ValidPath(path) && OwnersOf(p.nodes, path) == [n]
  {
    if Belongs(p, path, n) {
      var k :| 0 <= k < |p.nodes| && p.nodes[k] == n && Owns(n, path)
               && forall j :: 0 <= j < |p.nodes| && j != k ==> !Owns(p.nodes[j], path);
      OwnersOfOne(p.nodes, path, k);
    }
    if OwnersOf(p.nodes, path) == [n] { var k := TheOneOwner(p.nodes, path); }
  }

  /** What one path contributes. */
  lemma PathImpactMeans(p: Policy, path: string)
    ensures var d := PathImpact(p, path);
            && (forall x :: x in d.owners <==> OwnerAt(p, path, x))
            && (forall x :: x in d.components <==> ComponentAt(p, path, x))
            && (forall x :: x in d.risks <==> RiskAt(p, path, x))
            && (forall x :: x in d.reasons <==> ReasonAt(p, path, x))
            && (forall x :: x in d.unknown <==> x == path && IsUnknown(p, path))
            && (d.prose <==> IsProse(p, path))
  {
    forall n ensures Belongs(p, path, n) <==> ValidPath(path) && OwnersOf(p.nodes, path) == [n] { BelongsIff(p, path, n); }
    if ValidPath(path) && |OwnersOf(p.nodes, path)| == 1 {
      var n := OwnersOf(p.nodes, path)[0];
      assert Belongs(p, path, n) && forall m :: Belongs(p, path, m) ==> m == n;
      OwnedImpactMeans(p, path, n);
    }
  }

  lemma OwnedImpactMeans(p: Policy, path: string, n: Node)
    requires ValidPath(path) && OwnersOf(p.nodes, path) == [n]
    ensures var d := PathImpact(p, path);
            && d.owners == {n.id} && d.components == n.components && d.unknown == {}
            && (forall x :: x in d.risks <==> x in n.riskFlags || BearsRisk(p.rules, path, x))
            && (forall x :: x in d.reasons <==> IsReason(p.rules, path, x) || (x.Flag? && x.flag in n.renderFlags))
            && (d.prose <==> n.id == DOCUMENTATION && !IsPolicyDocument(p.rules, path))
  {
    PolicyDocumentIff(p.rules, path);
    forall x ensures x in PathRisks(p.rules, path) <==> BearsRisk(p.rules, path, x) { RiskIff(p.rules, path, x); }
    forall x ensures x in PathReasons(p.rules, path) <==> IsReason(p.rules, path, x) { ReasonIff(p.rules, path, x); }
    forall x ensures x in Flags(n) <==> x.Flag? && x.flag in n.renderFlags {}
  }

  /** Every part of an impact that the paths alone determine, path by path. */
  lemma ImpactMeans(p: Policy, paths: seq<string>)
    ensures var i := ImpactOf(p, paths);
            && (forall x :: x in i.owners <==> exists q :: q in paths && OwnerAt(p, q, x))
            && (forall x :: x in i.components <==> exists q :: q in paths && ComponentAt(p, q, x))
            && (forall x :: x in i.riskFlags <==> exists q :: q in paths && RiskAt(p, q, x))
            && (forall x :: x in i.renderReasons <==> exists q :: q in paths && ReasonAt(p, q, x))
            && (forall x :: x in i.unknownPaths <==> x in paths && IsUnknown(p, x))
            && (i.documentationOnly <==> paths != [] && forall q :: q in paths ==> IsProse(p, q))
  {
    OwnersMean(p, paths);
    ComponentsMean(p, paths);
    RisksMean(p, paths);
    ReasonsMean(p, paths);
    UnknownMeans(p, paths);
    ProseMeans(p, paths);
  }

  lemma {:induction false} OwnersMean(p: Policy, paths: seq<string>)
    ensures forall x :: x in DirectOf(p, paths).owners <==> exists q :: q in paths && OwnerAt(p, q, x)
  {
    if paths != [] {
      OwnersMean(p, paths[..|paths| - 1]);
      PathImpactMeans(p, paths[|paths| - 1]);
      LastPath(paths);
    }
  }

  lemma {:induction false} ComponentsMean(p: Policy, paths: seq<string>)
    ensures forall x :: x in DirectOf(p, paths).components <==> exists q :: q in paths && ComponentAt(p, q, x)
  {
    if paths != [] {
      ComponentsMean(p, paths[..|paths| - 1]);
      PathImpactMeans(p, paths[|paths| - 1]);
      LastPath(paths);
    }
  }

  lemma {:induction false} RisksMean(p: Policy, paths: seq<string>)
    ensures forall x :: x in DirectOf(p, paths).risks <==> exists q :: q in paths && RiskAt(p, q, x)
  {
    if paths != [] {
      RisksMean(p, paths[..|paths| - 1]);
      PathImpactMeans(p, paths[|paths| - 1]);
      LastPath(paths);
    }
  }

  lemma {:induction false} ReasonsMean(p: Policy, paths: seq<string>)
    ensures forall x :: x in DirectOf(p, paths).reasons <==> exists q :: q in paths && ReasonAt(p, q, x)
  {
    if paths != [] {
      ReasonsMean(p, paths[..|paths| - 1]);
      PathImpactMeans(p, paths[|paths| - 1]);
      LastPath(paths);
    }
  }

  lemma {:induction false} UnknownMeans(p: Policy, paths: seq<string>)
    ensures forall x :: x in DirectOf(p, paths).unknown <==> x in paths && IsUnknown(p, x)
  {
    if paths != [] {
      UnknownMeans(p, paths[..|paths| - 1]);
      PathImpactMeans(p, paths[|paths| - 1]);
      LastPath(paths);
    }
  }

  lemma {:induction false} ProseMeans(p: Policy, paths: seq<string>)
    ensures DirectOf(p, paths).prose <==> forall q :: q in paths ==> IsProse(p, q)
    ensures DirectOf(p, paths).prose ==> DirectOf(p, paths).unknown == {}
  {
    if paths != [] {
      ProseMeans(p, paths[..|paths| - 1]);
      PathImpactMeans(p, paths[|paths| - 1]);
      LastPath(paths);
    }
  }

  lemma LastPath(paths: seq<string>)
    requires paths != []
    ensures forall q :: q in paths <==> q in paths[..|paths| - 1] || q == paths[|paths| - 1]
  {
  }

  /** Downstream nodes and test labels. */
  lemma ClosureMeans(p: Policy, paths: seq<string>)
    ensures var i := ImpactOf(p, paths);
            && (forall x :: x in i.downstream <==> x in p.graph && exists o :: o in i.owners && o != x && Reaches(p.graph, o, x))
            && (forall l :: l in i.testLabels <==> exists n :: n in i.downstream && n in p.labels && l in p.labels[n])
  {
  }
}
