/**
 Choosing evidence: the newest envelope of a set of candidates, and whether it may
 be reused instead of a fresh run.
 */
module Evidence {
  import opened Sequences
  import opened Wrappers

  // Everything the choice depends on is a property of the set of candidate
  // envelopes, so the order in which a directory lists them does not matter.

  datatype Outcome = ActionRequired | Cancelled | Failure | Skipped | Stale | Success | TimedOut

  // `body` stands for the fields that only take part in comparing envelopes;
  // `runId` is the run of an envelope made by GitHub Actions.
  datatype Envelope = Envelope(id: string, component: string, producedAt: int, expiresAt: int,
                               supersedes: Option<string>, result: Outcome, inputs: string, environment: string,
                               policy: string, contract: string, runId: Option<int>, body: string)

  datatype Candidate = Candidate(path: string, envelope: Envelope)

  datatype Choice = NoEvidence | Ambiguous | Chosen(path: string, envelope: Envelope)

  ghost function Envelopes(cs: seq<Candidate>): set<Envelope> {
    set c | c in cs :: c.envelope
  }

  /** The envelopes of the newest instant. */
  ghost function Tied(es: set<Envelope>): set<Envelope> {
    set e | e in es && forall d :: d in es ==> d.producedAt <= e.producedAt
  }

  /** Equal identities mean equal envelopes. */
  ghost predicate Consistent(es: set<Envelope>) {
    forall d, e :: d in es && e in es && d.id == e.id ==> d == e
  }

  ghost predicate IsSuperseded(es: set<Envelope>, e: Envelope) {
    exists d :: d in es && d.supersedes == Some(e.id)
  }

  ghost predicate IsOnlySurvivor(es: set<Envelope>, e: Envelope) {
    && e in es && !IsSuperseded(es, e)
    && forall d {:trigger IsSuperseded(es, d)} :: d in es && !IsSuperseded(es, d) ==> d == e
  }

  /** `e` is the one envelope of the newest instant that no other of that instant supersedes. */
  ghost predicate IsHead(es: set<Envelope>, e: Envelope) {
    Consistent(Tied(es)) && IsOnlySurvivor(Tied(es), e)
  }

  lemma HeadIsUnique(es: set<Envelope>, d: Envelope, e: Envelope)
    requires IsHead(es, d) && IsHead(es, e)
    ensures d == e
  {
    assert d in Tied(es) && !IsSuperseded(Tied(es), d);
  }

  // ---- the selector ----

  method NewestTime(cs: seq<Candidate>) returns (newest: int)
    requires cs != []
    ensures exists c :: c in cs && c.envelope.producedAt == newest
    ensures forall c :: c in cs ==> c.envelope.producedAt <= newest
  {
    newest := cs[0].envelope.producedAt;
    for i := 0 to |cs|
      invariant exists c :: c in cs && c.envelope.producedAt == newest
      invariant forall k :: 0 <= k < i ==> cs[k].envelope.producedAt <= newest
    {
      if cs[i].envelope.producedAt > newest {
        newest := cs[i].envelope.producedAt;
      }
    }
  }

  function AtTime(cs: seq<Candidate>, time: int): seq<Candidate> {
    if cs == [] then [] else (if cs[0].envelope.producedAt == time then [cs[0]] else []) + AtTime(cs[1..], time)
  }

  lemma {:induction false} AtTimeIs(cs: seq<Candidate>, time: int)
    ensures forall c :: c in AtTime(cs, time) <==> c in cs && c.envelope.producedAt == time
  {
    if cs != [] {
      AtTimeIs(cs[1..], time);
      assert forall c :: c in cs <==> c == cs[0] || c in cs[1..];
    }
  }

  /** `unique` holds the first of `cs` for each identity, and `cs` is consistent. */
  ghost predicate Deduplicated(cs: seq<Candidate>, unique: map<string, Candidate>) {
    && (forall c :: c in cs ==> c.envelope.id in unique && unique[c.envelope.id].envelope == c.envelope)
    && (forall k :: k in unique ==> unique[k] in cs && unique[k].envelope.id == k)
  }

  method Deduplicate(cs: seq<Candidate>) returns (r: Option<map<string, Candidate>>)
    ensures r.Some? <==> Consistent(Envelopes(cs))
    ensures r.Some? ==> Deduplicated(cs, r.value)
  {
    var unique: map<string, Candidate> := map[];
    for i := 0 to |cs|
      invariant Deduplicated(cs[..i], unique)
    {
      var c := cs[i];
      assert cs[..i + 1] == cs[..i] + [c];
      if c.envelope.id in unique {
        if unique[c.envelope.id].envelope != c.envelope {
          assert unique[c.envelope.id] in cs && c in cs;
          assert unique[c.envelope.id].envelope in Envelopes(cs) && c.envelope in Envelopes(cs);
          return None;
        }
      } else {
        unique := unique[c.envelope.id := c];
      }
    }
    assert cs[..|cs|] == cs;
    return Some(unique);
  }

  /** The identities in `unique` that another envelope there supersedes. */
  function SupersededIds(unique: map<string, Candidate>): set<string> {
    set k | k in unique && unique[k].envelope.supersedes.Some? && unique[k].envelope.supersedes.value in unique
          :: unique[k].envelope.supersedes.value
  }

  /** The one newest envelope, or why there is none. */
  method SelectLatest(cs: seq<Candidate>) returns (r: Choice)
    ensures r.NoEvidence? <==> cs == []
    ensures r.Chosen? ==> Candidate(r.path, r.envelope) in cs && IsHead(Envelopes(cs), r.envelope)
    ensures r.Ambiguous? ==> !exists e :: IsHead(Envelopes(cs), e)
  {
    if cs == [] {
      return NoEvidence;
    }
    var newest := NewestTime(cs);
    var tied := AtTime(cs, newest);
    AtTimeIs(cs, newest);
    TiedIs(cs, newest, tied);
    var deduplicated := Deduplicate(tied);
    if deduplicated.None? {
      return Ambiguous;
    }
    r := ChooseSurvivor(tied, deduplicated.value);
  }

  method ChooseSurvivor(tied: seq<Candidate>, unique: map<string, Candidate>) returns (r: Choice)
    requires Deduplicated(tied, unique)
    ensures !r.NoEvidence?
    ensures r.Chosen? ==> Candidate(r.path, r.envelope) in tied && IsOnlySurvivor(Envelopes(tied), r.envelope)
    ensures r.Ambiguous? ==> !exists e :: IsOnlySurvivor(Envelopes(tied), e)
  {
    var survivors := unique.Keys - SupersededIds(unique);
    SurvivorsAre(tied, unique, survivors);
    if |survivors| == 1 {
      var k :| k in survivors;
      Singleton(survivors, k);
      LoneSurvivor(tied, unique, k);
      return Chosen(unique[k].path, unique[k].envelope);
    }
    forall e ensures !IsOnlySurvivor(Envelopes(tied), e) {
      if IsOnlySurvivor(Envelopes(tied), e) { SurvivorIsLone(tied, unique, e); }
    }
    return Ambiguous;
  }

  lemma LoneSurvivor(tied: seq<Candidate>, unique: map<string, Candidate>, k: string)
    requires Deduplicated(tied, unique) && unique.Keys - SupersededIds(unique) == {k}
    ensures k in unique && unique[k] in tied && IsOnlySurvivor(Envelopes(tied), unique[k].envelope)
  {
    SurvivorsAre(tied, unique, {k});
    assert k in {k};
  }

  lemma SurvivorIsLone(tied: seq<Candidate>, unique: map<string, Candidate>, e: Envelope)
    requires Deduplicated(tied, unique) && IsOnlySurvivor(Envelopes(tied), e)
    ensures |unique.Keys - SupersededIds(unique)| == 1
  {
    SurvivorsAre(tied, unique, unique.Keys - SupersededIds(unique));
    assert unique.Keys - SupersededIds(unique) == {e.id};
  }

  lemma Singleton(xs: set<string>, k: string)
    requires |xs| == 1 && k in xs
    ensures xs == {k}
  {
    assert |xs - {k}| == 0;
    assert xs == (xs - {k}) + {k};
  }

  lemma TiedIs(cs: seq<Candidate>, newest: int, tied: seq<Candidate>)
    requires exists c :: c in cs && c.envelope.producedAt == newest
    requires forall c :: c in cs ==> c.envelope.producedAt <= newest
    requires forall c :: c in tied <==> c in cs && c.envelope.producedAt == newest
    ensures Envelopes(tied) == Tied(Envelopes(cs))
  {
    var c0 :| c0 in cs && c0.envelope.producedAt == newest;
    forall e ensures e in Envelopes(tied) <==> e in Tied(Envelopes(cs)) {
      if e in Envelopes(tied) {
        var c :| c in tied && c.envelope == e;
        assert c in cs && e in Envelopes(cs);
      }
      if e in Tied(Envelopes(cs)) {
        var c :| c in cs && c.envelope == e;
        assert c0.envelope in Envelopes(cs) && newest <= e.producedAt;
        assert c in tied;
      }
    }
  }

  lemma SurvivorsAre(tied: seq<Candidate>, unique: map<string, Candidate>, survivors: set<string>)
    requires Deduplicated(tied, unique) && survivors == unique.Keys - SupersededIds(unique)
    ensures forall e :: e in Envelopes(tied) ==> (e.id in survivors <==> !IsSuperseded(Envelopes(tied), e))
    ensures forall k :: k in survivors ==> unique[k].envelope in Envelopes(tied)
  {
    forall e | e in Envelopes(tied) ensures e.id in survivors <==> !IsSuperseded(Envelopes(tied), e) {
      var c :| c in tied && c.envelope == e;
      assert e.id in unique;
      if e.id in SupersededIds(unique) {
        var k :| k in unique && unique[k].envelope.supersedes == Some(e.id);
        assert unique[k].envelope in Envelopes(tied);
      }
      if IsSuperseded(Envelopes(tied), e) {
        var d :| d in Envelopes(tied) && d.supersedes == Some(e.id);
        var b :| b in tied && b.envelope == d;
        assert unique[d.id].envelope == d;
      }
    }
  }

  /** Neither the order of the candidates nor duplicates change the envelope chosen. */
  lemma OrderDoesNotMatter(xs: seq<Candidate>, ys: seq<Candidate>, d: Envelope, e: Envelope)
    requires Envelopes(xs) == Envelopes(ys) && IsHead(Envelopes(xs), d) && IsHead(Envelopes(ys), e)
    ensures d == e
  {
    HeadIsUnique(Envelopes(xs), d, e);
  }

  // ---- supersession chains ----

  /** `p` follows supersession inside `es`. */
  ghost predicate SupersessionChain(es: set<Envelope>, p: seq<Envelope>) {
    && p != [] && (forall i :: 0 <= i < |p| ==> p[i] in es)
    && forall i :: 0 <= i < |p| - 1 ==> p[i].supersedes == Some(p[i + 1].id)
  }

  ghost predicate Acyclic(es: set<Envelope>) {
    forall p :: SupersessionChain(es, p) && |p| >= 2 ==> p[0] != p[|p| - 1]
  }

  /** The end of the chain supersedes nothing in `es`. */
  ghost predicate Ends(es: set<Envelope>, p: seq<Envelope>)
    requires p != []
  {
    forall e :: e in es ==> p[|p| - 1].supersedes != Some(e.id)
  }

  /** All of `es` is one supersession chain, newest claim first. */
  ghost predicate OneChain(es: set<Envelope>, p: seq<Envelope>) {
    SupersessionChain(es, p) && Distinct(p) && Ends(es, p) && forall e :: e in es ==> e in p
  }

  lemma {:induction false} DistinctBound(p: seq<Envelope>, es: set<Envelope>)
    requires Distinct(p) && forall i :: 0 <= i < |p| ==> p[i] in es
    ensures |p| <= |es|
  {
    if p != [] {
      DistinctBound(p[1..], es - {p[0]});
    }
  }

  lemma ChainSlice(es: set<Envelope>, p: seq<Envelope>, i: nat, j: nat)
    requires SupersessionChain(es, p) && i < j <= |p|
    ensures SupersessionChain(es, p[i..j])
  {
  }

  /** An envelope that a member of a finished chain supersedes is the next member. */
  lemma NextInChain(es: set<Envelope>, p: seq<Envelope>, k: nat, e: Envelope)
    requires Consistent(es) && SupersessionChain(es, p) && Ends(es, p) && k < |p| && e in es && p[k].supersedes == Some(e.id)
    ensures k < |p| - 1 && p[k + 1] == e
  {
    assert k < |p| - 1;
    assert p[k + 1] in es;
  }

  ghost predicate AllSuperseded(us: set<Envelope>) {
    forall e {:trigger IsSuperseded(us, e)} :: e in us ==> IsSuperseded(us, e)
  }

  /** If everything in `us` is superseded from inside `us`, following supersession backwards closes a cycle. */
  lemma {:induction false} BackwardsForever(us: set<Envelope>, p: seq<Envelope>)
    requires SupersessionChain(us, p) && Distinct(p)
    requires AllSuperseded(us)
    ensures !Acyclic(us)
    decreases |us| - |p|
  {
    DistinctBound(p, us);
    assert IsSuperseded(us, p[0]);
    var d :| d in us && d.supersedes == Some(p[0].id);
    ChainPrepend(us, d, p);
    if d in p {
      ChainComesBack(us, d, p);
    } else {
      DistinctBound([d] + p, us);
      BackwardsForever(us, [d] + p);
    }
  }

  lemma ChainComesBack(us: set<Envelope>, d: Envelope, p: seq<Envelope>)
    requires SupersessionChain(us, [d] + p) && d in p
    ensures !Acyclic(us)
  {
    var k :| 0 <= k < |p| && p[k] == d;
    var cycle := ([d] + p)[0..k + 2];
    ChainSlice(us, [d] + p, 0, k + 2);
    assert cycle[0] == cycle[|cycle| - 1];
  }

  lemma ChainPrepend(es: set<Envelope>, d: Envelope, p: seq<Envelope>)
    requires SupersessionChain(es, p) && d in es && d.supersedes == Some(p[0].id)
    ensures SupersessionChain(es, [d] + p)
    ensures d !in p && Distinct(p) ==> Distinct([d] + p)
  {
    var longer := [d] + p;
    forall i | 0 <= i < |longer| - 1 ensures longer[i].supersedes == Some(longer[i + 1].id) {
      if i > 0 { assert longer[i] == p[i - 1] && longer[i + 1] == p[i]; }
    }
  }

  lemma ChainAppend(es: set<Envelope>, p: seq<Envelope>, e: Envelope)
    requires Acyclic(es) && SupersessionChain(es, p) && Distinct(p) && e in es && p[|p| - 1].supersedes == Some(e.id)
    ensures SupersessionChain(es, p + [e]) && Distinct(p + [e]) && (p + [e])[0] == p[0]
  {
    var longer := p + [e];
    assert SupersessionChain(es, longer);
    if k :| 0 <= k < |p| && p[k] == e {
      ChainSlice(es, longer, k, |longer|);
      assert false;
    }
  }

  /** Follows supersession from the end of `p` until it leaves the set. */
  lemma {:induction false} FollowToEnd(es: set<Envelope>, p: seq<Envelope>) returns (q: seq<Envelope>)
    requires Consistent(es) && Acyclic(es) && SupersessionChain(es, p) && Distinct(p)
    ensures SupersessionChain(es, q) && Distinct(q) && Ends(es, q) && q[0] == p[0]
    decreases |es| - |p|
  {
    DistinctBound(p, es);
    if e :| e in es && p[|p| - 1].supersedes == Some(e.id) {
      ChainAppend(es, p, e);
      DistinctBound(p + [e], es);
      q := FollowToEnd(es, p + [e]);
    } else {
      q := p;
    }
  }

  /** The only unsuperseded envelope of an acyclic set heads one chain through all of it. */
  lemma OnlySurvivorHeadsAChain(es: set<Envelope>, s: Envelope) returns (p: seq<Envelope>)
    requires Consistent(es) && Acyclic(es) && s in es
    requires forall d {:trigger IsSuperseded(es, d)} :: d in es && !IsSuperseded(es, d) ==> d == s
    ensures OneChain(es, p) && p[0] == s
  {
    p := FollowToEnd(es, [s]);
    var rest := set e | e in es && e !in p;
    forall e {:trigger IsSuperseded(rest, e)} | e in rest ensures IsSuperseded(rest, e) {
      assert IsSuperseded(es, e) by { assert e in es && e != p[0]; }
      var d :| d in es && d.supersedes == Some(e.id);
      if d in p { MemberLeadsToMember(es, p, d, e); }
      assert d in rest;
    }
    if e :| e in rest {
      BackwardsForever(rest, [e]);
      CyclesSpread(rest, es);
      assert false;
    }
    assert forall e :: e in es ==> e in rest || e in p;
  }

  lemma MemberLeadsToMember(es: set<Envelope>, p: seq<Envelope>, d: Envelope, e: Envelope)
    requires Consistent(es) && SupersessionChain(es, p) && Ends(es, p) && d in p && e in es && d.supersedes == Some(e.id)
    ensures e in p
  {
    var k :| 0 <= k < |p| && p[k] == d;
    NextInChain(es, p, k, e);
  }

  lemma CyclesSpread(us: set<Envelope>, es: set<Envelope>)
    requires us <= es && !Acyclic(us)
    ensures !Acyclic(es)
  {
    var c :| SupersessionChain(us, c) && |c| >= 2 && c[0] == c[|c| - 1];
    assert SupersessionChain(es, c);
  }

  /** The head of a chain through the whole set is its only unsuperseded envelope. */
  lemma ChainHeadIsOnlySurvivor(es: set<Envelope>, p: seq<Envelope>)
    requires Consistent(es) && OneChain(es, p)
    ensures IsOnlySurvivor(es, p[0])
  {
    if d :| d in es && d.supersedes == Some(p[0].id) {
      var k :| 0 <= k < |p| && p[k] == d;
      NextInChain(es, p, k, p[0]);
      assert false;
    }
    forall d | d in es && d != p[0] ensures IsSuperseded(es, d) {
      var k :| 0 <= k < |p| && p[k] == d;
      assert p[k - 1] in es && p[k - 1].supersedes == Some(d.id);
    }
  }

  /** When no cycle is tied, selection succeeds if and only if the tied envelopes form one chain; it returns the chain's head. */
  lemma HeadIffOneChain(es: set<Envelope>, e: Envelope)
    requires Consistent(Tied(es)) && Acyclic(Tied(es))
    ensures IsHead(es, e) <==> exists p :: OneChain(Tied(es), p) && p[0] == e
  {
    if IsHead(es, e) {
      var p := OnlySurvivorHeadsAChain(Tied(es), e);
    }
    if p :| OneChain(Tied(es), p) && p[0] == e {
      ChainHeadIsOnlySurvivor(Tied(es), p);
    }
  }

  lemma {:induction false} ChainIsAcyclic(es: set<Envelope>, p: seq<Envelope>, c: seq<Envelope>, i: nat)
    requires Consistent(es) && OneChain(es, p) && SupersessionChain(es, c) && i < |p| && p[i] == c[0]
    ensures i + |c| <= |p| && p[i + |c| - 1] == c[|c| - 1]
  {
    if |c| > 1 {
      assert c[1] in es;
      assert i < |p| - 1;
      assert p[i + 1] in es && p[i + 1] == c[1];
      ChainIsAcyclic(es, p, c[1..], i + 1);
    }
  }

  /** When selection succeeds, the tied envelopes form one chain if and only if no cycle is tied beside the head. */
  lemma SelectedChainIffAcyclic(es: set<Envelope>, e: Envelope)
    requires IsHead(es, e)
    ensures Acyclic(Tied(es)) <==> exists p :: OneChain(Tied(es), p) && p[0] == e
  {
    var tied := Tied(es);
    if Acyclic(tied) {
      var p := OnlySurvivorHeadsAChain(tied, e);
    }
    if p :| OneChain(tied, p) && p[0] == e {
      forall c | SupersessionChain(tied, c) && |c| >= 2 ensures c[0] != c[|c| - 1] {
        var i :| 0 <= i < |p| && p[i] == c[0];
        ChainIsAcyclic(tied, p, c, i);
      }
    }
  }

  /** A supersession cycle beside a lone unsuperseded envelope is not reported: that envelope is chosen. */
  lemma CycleBesideHeadIsNotReported(e: Envelope)
    requires e.id == "a" && e.supersedes == None
    ensures var b, c := e.(id := "b", supersedes := Some("c")), e.(id := "c", supersedes := Some("b"));
            IsHead({e, b, c}, e) && !Acyclic(Tied({e, b, c}))
  {
    var b, c := e.(id := "b", supersedes := Some("c")), e.(id := "c", supersedes := Some("b"));
    var es := {e, b, c};
    assert Tied(es) == es;
    assert "a" != "b" && "b" != "c" && "a" != "c";
    assert c.supersedes == Some(b.id) && b.supersedes == Some(c.id);
    assert IsSuperseded(es, b) && IsSuperseded(es, c);
    assert SupersessionChain(es, [b, c, b]);
  }

  // ---- reuse ----

  datatype Plan = Plan(component: string, inputs: string, environment: string, policy: string, contract: string)

  datatype HistoryRun = HistoryRun(succeeded: bool, id: Option<int>)

  // The checks whose code lies elsewhere: the envelope schema, the trust and file
  // checks of one stored envelope, and the screenshot contract.
  datatype Checks = Checks(valid: Envelope -> bool, complaint: (string, Envelope) -> Option<string>,
                           screenshot: Envelope -> Option<string>, now: int)

  datatype Reason =
    | NoMatchingEvidence | RelevantInputsChanged | EnvironmentChanged | PolicyChanged | ContractChanged
    | AmbiguousLatest | SupersededByNewer | LatestResult(result: Outcome) | Expired | Complaint(text: string)
    | LaterNonSuccessfulRun | ExactDigestMatch

  function Mismatch(plan: Plan, e: Envelope): Option<Reason> {
    if e.inputs != plan.inputs then Some(RelevantInputsChanged)
    else if e.environment != plan.environment then Some(EnvironmentChanged)
    else if e.policy != plan.policy then Some(PolicyChanged)
    else if e.contract != plan.contract then Some(ContractChanged)
    else None
  }

  predicate OfComponent(plan: Plan, checks: Checks, e: Envelope) {
    checks.valid(e) && e.component == plan.component
  }

  predicate Matches(plan: Plan, checks: Checks, e: Envelope) {
    OfComponent(plan, checks, e) && Mismatch(plan, e) == None
  }

  /** A later run that did not succeed makes evidence of an earlier run unusable; a run without an id always does. */
  predicate Invalidates(run: HistoryRun, e: Envelope) {
    !run.succeeded && (run.id.None? || (e.runId.Some? && run.id.value > e.runId.value))
  }

  // ---- what reuse promises ----

  // Stated on the fields of envelopes, plans and runs, without the functions above.

  /** The part of an envelope that a plan fixes. */
  ghost function Fixed(e: Envelope): Plan {
    Plan(e.component, e.inputs, e.environment, e.policy, e.contract)
  }

  /** The valid envelopes made for exactly what the plan fixes. */
  ghost function Fitting(plan: Plan, checks: Checks, cs: seq<Candidate>): set<Envelope> {
    set e | e in Envelopes(cs) && checks.valid(e) && Fixed(e) == plan
  }

  /** Every strictly newer envelope of the component succeeded and leaves `e` standing. */
  ghost predicate Unopposed(plan: Plan, checks: Checks, cs: seq<Candidate>, e: Envelope) {
    forall d :: d in Envelopes(cs) && checks.valid(d) && d.component == plan.component && d.producedAt > e.producedAt ==>
      d.result == Success && d.supersedes != Some(e.id)
  }

  /** The newest fitting envelope stands unopposed, succeeded and has not expired. */
  ghost predicate Sound(plan: Plan, checks: Checks, cs: seq<Candidate>, e: Envelope) {
    IsHead(Fitting(plan, checks, cs), e) && Unopposed(plan, checks, cs, e) && e.result == Success && e.expiresAt > checks.now
  }

  /** Every run that did not succeed has an id, and is no later than the run `e` comes from, if that has one. */
  ghost predicate Undisturbed(history: seq<HistoryRun>, e: Envelope) {
    forall run :: run in history && !run.succeeded ==> run.id.Some? && (e.runId.Some? ==> run.id.value <= e.runId.value)
  }

  /** Everything reuse asks of an envelope, apart from its stored files. */
  ghost predicate Eligible(plan: Plan, checks: Checks, cs: seq<Candidate>, history: seq<HistoryRun>, e: Envelope) {
    && Sound(plan, checks, cs, e)
    && Undisturbed(history, e)
    && (plan.component == "screenshots" ==> checks.screenshot(e) == None)
  }

  /** The reason names the first fixed part in which `e` differs from the plan. */
  ghost predicate NamesDifference(plan: Plan, e: Envelope, reason: Reason) {
    match reason
    case RelevantInputsChanged => e.inputs != plan.inputs
    case EnvironmentChanged => e.inputs == plan.inputs && e.environment != plan.environment
    case PolicyChanged => e.inputs == plan.inputs && e.environment == plan.environment && e.policy != plan.policy
    case ContractChanged =>
      e.inputs == plan.inputs && e.environment == plan.environment && e.policy == plan.policy && e.contract != plan.contract
    case _ => false
  }

  /** The k-th candidate is the last valid one of the component. */
  ghost predicate IsLastOfComponent(plan: Plan, checks: Checks, cs: seq<Candidate>, k: int) {
    && 0 <= k < |cs| && checks.valid(cs[k].envelope) && cs[k].envelope.component == plan.component
    && forall j :: k < j < |cs| ==> !(checks.valid(cs[j].envelope) && cs[j].envelope.component == plan.component)
  }

  /** The k-th candidate is a valid, strictly newer one of the component that supersedes `e` or did not succeed. */
  ghost predicate Opposes(plan: Plan, checks: Checks, cs: seq<Candidate>, e: Envelope, k: int)
    requires 0 <= k < |cs|
  {
    var d := cs[k].envelope;
    && checks.valid(d) && d.component == plan.component && d.producedAt > e.producedAt
    && (d.supersedes == Some(e.id) || d.result != Success)
  }

  ghost predicate FirstOpposes(plan: Plan, checks: Checks, cs: seq<Candidate>, e: Envelope, k: int) {
    0 <= k < |cs| && Opposes(plan, checks, cs, e, k) && forall j :: 0 <= j < k ==> !Opposes(plan, checks, cs, e, j)
  }

  /** What a refusal of the newest fitting envelope `e` says about it. */
  ghost predicate SpeaksAgainst(plan: Plan, checks: Checks, cs: seq<Candidate>, history: seq<HistoryRun>, e: Envelope, reason: Reason) {
    match reason
    case SupersededByNewer => exists k :: FirstOpposes(plan, checks, cs, e, k) && cs[k].envelope.supersedes == Some(e.id)
    case LatestResult(x) =>
      x != Success
      && ((Unopposed(plan, checks, cs, e) && e.result == x)
          || exists k :: FirstOpposes(plan, checks, cs, e, k) && cs[k].envelope.supersedes != Some(e.id) && cs[k].envelope.result == x)
    case Expired => Unopposed(plan, checks, cs, e) && e.result == Success && e.expiresAt <= checks.now
    case Complaint(text) =>
      Sound(plan, checks, cs, e)
      && ((exists path :: Candidate(path, e) in cs && checks.complaint(path, e) == Some(text))
          || (Undisturbed(history, e) && plan.component == "screenshots" && checks.screenshot(e) == Some(text)))
    case LaterNonSuccessfulRun => Sound(plan, checks, cs, e) && !Undisturbed(history, e)
    case _ => false
  }

  /** Why nothing fits: there is no valid candidate of the component, or the first difference of the last one. */
  ghost predicate ExplainsAbsence(plan: Plan, checks: Checks, cs: seq<Candidate>, reason: Reason) {
    if reason == NoMatchingEvidence
    then forall k :: 0 <= k < |cs| ==> !(checks.valid(cs[k].envelope) && cs[k].envelope.component == plan.component)
    else exists k :: IsLastOfComponent(plan, checks, cs, k) && NamesDifference(plan, cs[k].envelope, reason)
  }

  /** What the reason of a refusal says. */
  ghost predicate ExplainsRefusal(plan: Plan, checks: Checks, cs: seq<Candidate>, history: seq<HistoryRun>, reason: Reason) {
    if Fitting(plan, checks, cs) == {} then ExplainsAbsence(plan, checks, cs, reason)
    else if reason == AmbiguousLatest then forall e :: !IsHead(Fitting(plan, checks, cs), e)
    else exists e :: IsHead(Fitting(plan, checks, cs), e) && SpeaksAgainst(plan, checks, cs, history, e, reason)
  }

  // ---- the choice ----

  function Keep(plan: Plan, checks: Checks, cs: seq<Candidate>): seq<Candidate> {
    if cs == [] then [] else (if Matches(plan, checks, cs[0].envelope) then [cs[0]] else []) + Keep(plan, checks, cs[1..])
  }

  lemma {:induction false} KeepIs(plan: Plan, checks: Checks, cs: seq<Candidate>)
    ensures forall c :: c in Keep(plan, checks, cs) <==> c in cs && Matches(plan, checks, c.envelope)
    ensures Envelopes(Keep(plan, checks, cs)) == Fitting(plan, checks, cs)
  {
    if cs != [] {
      KeepIs(plan, checks, cs[1..]);
      assert forall c :: c in cs <==> c == cs[0] || c in cs[1..];
    }
    assert forall c :: c in Keep(plan, checks, cs) <==> c in cs && Matches(plan, checks, c.envelope);
    forall e ensures e in Envelopes(Keep(plan, checks, cs)) <==> e in Fitting(plan, checks, cs) {
      if e in Fitting(plan, checks, cs) {
        var c :| c in cs && c.envelope == e;
        assert c in Keep(plan, checks, cs);
      }
    }
  }

  /** Why the last candidate of the component that does not match, does not. */
  function LastMismatch(plan: Plan, checks: Checks, cs: seq<Candidate>): Reason {
    if cs == [] then NoMatchingEvidence
    else
      var e := cs[|cs| - 1].envelope;
      if OfComponent(plan, checks, e) && Mismatch(plan, e).Some? then Mismatch(plan, e).value
      else LastMismatch(plan, checks, cs[..|cs| - 1])
  }

  lemma {:induction false} LastMismatchIs(plan: Plan, checks: Checks, cs: seq<Candidate>)
    requires Fitting(plan, checks, cs) == {}
    ensures ExplainsAbsence(plan, checks, cs, LastMismatch(plan, checks, cs))
  {
    if cs != [] {
      var e := cs[|cs| - 1].envelope;
      assert e in Envelopes(cs) && e !in Fitting(plan, checks, cs);
      if checks.valid(e) && e.component == plan.component {
        assert IsLastOfComponent(plan, checks, cs, |cs| - 1);
        assert NamesDifference(plan, e, LastMismatch(plan, checks, cs));
      } else {
        OlderFitting(plan, checks, cs);
        LastMismatchIs(plan, checks, cs[..|cs| - 1]);
        AbsenceStays(plan, checks, cs, LastMismatch(plan, checks, cs));
      }
    }
  }

  lemma OlderFitting(plan: Plan, checks: Checks, cs: seq<Candidate>)
    requires cs != []
    ensures Fitting(plan, checks, cs[..|cs| - 1]) <= Fitting(plan, checks, cs)
  {
    assert forall c :: c in cs[..|cs| - 1] ==> c in cs;
  }

  lemma AbsenceStays(plan: Plan, checks: Checks, cs: seq<Candidate>, reason: Reason)
    requires cs != [] && !(checks.valid(cs[|cs| - 1].envelope) && cs[|cs| - 1].envelope.component == plan.component)
    requires ExplainsAbsence(plan, checks, cs[..|cs| - 1], reason)
    ensures ExplainsAbsence(plan, checks, cs, reason)
  {
    var older := cs[..|cs| - 1];
    assert forall j :: 0 <= j < |older| ==> older[j] == cs[j];
    if reason != NoMatchingEvidence {
      var k :| IsLastOfComponent(plan, checks, older, k) && NamesDifference(plan, older[k].envelope, reason);
      assert IsLastOfComponent(plan, checks, cs, k);
    }
  }

  /** The candidates that match the plan, and the last reason one did not. */
  method Collect(plan: Plan, checks: Checks, cs: seq<Candidate>) returns (matching: seq<Candidate>, invalid: Reason)
    ensures matching == Keep(plan, checks, cs) && invalid == LastMismatch(plan, checks, cs)
  {
    matching, invalid := [], NoMatchingEvidence;
    for i := 0 to |cs|
      invariant matching + Keep(plan, checks, cs[i..]) == Keep(plan, checks, cs)
      invariant invalid == LastMismatch(plan, checks, cs[..i])
    {
      CollectStep(plan, checks, cs, i, matching);
      var e := cs[i].envelope;
      if OfComponent(plan, checks, e) {
        var mismatch := Mismatch(plan, e);
        if mismatch.Some? {
          invalid := mismatch.value;
        } else {
          matching := matching + [cs[i]];
        }
      }
    }
    assert cs[..|cs|] == cs;
  }

  lemma CollectStep(plan: Plan, checks: Checks, cs: seq<Candidate>, i: nat, done: seq<Candidate>)
    requires i < |cs|
    ensures done + Keep(plan, checks, cs[i..])
         == (if Matches(plan, checks, cs[i].envelope) then done + [cs[i]] else done) + Keep(plan, checks, cs[i + 1..])
    ensures LastMismatch(plan, checks, cs[..i + 1])
         == if OfComponent(plan, checks, cs[i].envelope) && Mismatch(plan, cs[i].envelope).Some?
            then Mismatch(plan, cs[i].envelope).value else LastMismatch(plan, checks, cs[..i])
  {
    assert cs[i..][0] == cs[i] && cs[i..][1..] == cs[i + 1..];
    assert cs[..i + 1][i] == cs[i] && cs[..i + 1][..i] == cs[..i];
    assert done + ([cs[i]] + Keep(plan, checks, cs[i + 1..])) == done + [cs[i]] + Keep(plan, checks, cs[i + 1..]);
    assert [] + Keep(plan, checks, cs[i + 1..]) == Keep(plan, checks, cs[i + 1..]);
  }

  lemma NoneOpposes(plan: Plan, checks: Checks, cs: seq<Candidate>, e: Envelope)
    requires forall k :: 0 <= k < |cs| ==> !Opposes(plan, checks, cs, e, k)
    ensures Unopposed(plan, checks, cs, e)
  {
    forall d | d in Envelopes(cs) && checks.valid(d) && d.component == plan.component && d.producedAt > e.producedAt
      ensures d.result == Success && d.supersedes != Some(e.id)
    {
      var k :| 0 <= k < |cs| && cs[k].envelope == d;
      assert !Opposes(plan, checks, cs, e, k);
    }
  }

  method FindBlocker(plan: Plan, checks: Checks, cs: seq<Candidate>, e: Envelope) returns (r: Option<Reason>)
    ensures r.None? <==> Unopposed(plan, checks, cs, e)
    ensures r.Some? ==> exists k ::
              && FirstOpposes(plan, checks, cs, e, k)
              && r.value == if cs[k].envelope.supersedes == Some(e.id) then SupersededByNewer else LatestResult(cs[k].envelope.result)
  {
    for i := 0 to |cs|
      invariant forall k :: 0 <= k < i ==> !Opposes(plan, checks, cs, e, k)
    {
      var d := cs[i].envelope;
      assert d in Envelopes(cs);
      if OfComponent(plan, checks, d) && d.producedAt > e.producedAt {
        if d.supersedes == Some(e.id) {
          assert FirstOpposes(plan, checks, cs, e, i);
          return Some(SupersededByNewer);
        }
        if d.result != Success {
          assert FirstOpposes(plan, checks, cs, e, i);
          return Some(LatestResult(d.result));
        }
      }
    }
    NoneOpposes(plan, checks, cs, e);
    return None;
  }

  /**
   The envelope to reuse, if one is. What is reused is eligible and its stored files
   pass; an eligible envelope is refused only if some stored copy of it fails.
   */
  method ChooseReusable(plan: Plan, checks: Checks, cs: seq<Candidate>, history: seq<HistoryRun>)
    returns (r: Option<Envelope>, reason: Reason)
    ensures r.Some? ==> Eligible(plan, checks, cs, history, r.value)
    ensures r.Some? <==> reason == ExactDigestMatch
    ensures r.None? ==> ExplainsRefusal(plan, checks, cs, history, reason)
    ensures r.Some? ==> exists path :: Candidate(path, r.value) in cs && checks.complaint(path, r.value) == None
    ensures r.None? ==>
              forall e :: Eligible(plan, checks, cs, history, e) ==>
                exists path :: Candidate(path, e) in cs && checks.complaint(path, e) != None
  {
    var matching, invalid := Collect(plan, checks, cs);
    KeepIs(plan, checks, cs);
    if matching == [] {
      LastMismatchIs(plan, checks, cs);
      return None, invalid;
    }
    assert matching[0].envelope in Fitting(plan, checks, cs);
    var choice := SelectLatest(matching);
    if !choice.Chosen? {
      return None, AmbiguousLatest;
    }
    var newest := choice.envelope;
    forall e | Eligible(plan, checks, cs, history, e) ensures e == newest {
      HeadIsUnique(Fitting(plan, checks, cs), e, newest);
    }
    reason := Judge(plan, checks, cs, history, choice.path, newest);
    return if reason == ExactDigestMatch then Some(newest) else None, reason;
  }

  /** The checks on the newest fitting envelope. */
  method Judge(plan: Plan, checks: Checks, cs: seq<Candidate>, history: seq<HistoryRun>, path: string, newest: Envelope)
    returns (reason: Reason)
    requires IsHead(Fitting(plan, checks, cs), newest) && Candidate(path, newest) in cs
    ensures reason == ExactDigestMatch <==> Eligible(plan, checks, cs, history, newest) && checks.complaint(path, newest) == None
    ensures reason != ExactDigestMatch ==> SpeaksAgainst(plan, checks, cs, history, newest, reason)
  {
    var blocker := FindBlocker(plan, checks, cs, newest);
    if blocker.Some? {
      return blocker.value;
    }
    if newest.result != Success {
      return LatestResult(newest.result);
    }
    if newest.expiresAt <= checks.now {
      return Expired;
    }
    var complaint := checks.complaint(path, newest);
    if complaint.Some? {
      return Complaint(complaint.value);
    }
    if exists run :: run in history && Invalidates(run, newest) {
      return LaterNonSuccessfulRun;
    }
    if plan.component == "screenshots" && checks.screenshot(newest).Some? {
      return Complaint(checks.screenshot(newest).value);
    }
    return ExactDigestMatch;
  }

  /** Reused evidence is never older than a failure of its component: everything strictly newer succeeded and left it standing. */
  lemma ReuseNeverHidesAFailure(plan: Plan, checks: Checks, cs: seq<Candidate>, history: seq<HistoryRun>, e: Envelope, d: Envelope)
    requires Eligible(plan, checks, cs, history, e)
    requires d in Envelopes(cs) && checks.valid(d) && d.component == plan.component && d.producedAt > e.producedAt
    ensures d.result == Success && d.supersedes != Some(e.id) && Fixed(d) != plan
    ensures Fixed(e) == plan && d != e
  {
    assert Fixed(d) == plan ==> d in Fitting(plan, checks, cs);
  }

  /** Eligibility depends on the set of candidates only. */
  lemma EligibilityIgnoresOrder(plan: Plan, checks: Checks, xs: seq<Candidate>, ys: seq<Candidate>, history: seq<HistoryRun>, e: Envelope)
    requires Envelopes(xs) == Envelopes(ys)
    ensures Eligible(plan, checks, xs, history, e) <==> Eligible(plan, checks, ys, history, e)
  {
    assert Fitting(plan, checks, xs) == Fitting(plan, checks, ys);
  }
}
