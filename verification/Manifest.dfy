/**
 The digest of a source manifest: which manifests are accepted, the byte stream
 that is hashed, and the split of a component's inputs into groups.
 */
module Manifest {
  import opened Ownership
  import opened Text
  import opened Wrappers

  type Byte = b: int | 0 <= b < 256

  datatype Entry = Entry(path: string, mode: string, objectType: string, objectId: string)

  datatype Error = UnsafePath | NotSorted | TooLong

  const LENGTH_BYTES: nat := 8
  const LENGTH_LIMIT: nat := 0x1_0000_0000_0000_0000

  /** How a string becomes bytes: any injective codec. */
  type Codec = string -> seq<Byte>

  ghost predicate Injective(encode: Codec) {
    forall a, b :: encode(a) == encode(b) ==> a == b
  }

  // ---- the stream ----

  /** `n.to_bytes(k, "big")`, dropping what does not fit. */
  function BigEndian(n: nat, k: nat): (bytes: seq<Byte>)
    ensures |bytes| == k
  {
    if k == 0 then [] else BigEndian(n / 256, k - 1) + [n % 256]
  }

  function NumberOf(bytes: seq<Byte>): nat {
    if bytes == [] then 0 else NumberOf(bytes[..|bytes| - 1]) * 256 + bytes[|bytes| - 1]
  }

  function Power256(k: nat): nat {
    if k == 0 then 1 else 256 * Power256(k - 1)
  }

  lemma {:induction false} BigEndianValue(n: nat, k: nat)
    requires n < Power256(k)
    ensures NumberOf(BigEndian(n, k)) == n
  {
    if k > 0 {
      BigEndianValue(n / 256, k - 1);
      var bytes := BigEndian(n, k);
      assert bytes[..|bytes| - 1] == BigEndian(n / 256, k - 1);
    }
  }

  function Field(bytes: seq<Byte>): seq<Byte> {
    BigEndian(|bytes|, LENGTH_BYTES) + bytes
  }

  function EntryStream(encode: Codec, e: Entry): seq<Byte> {
    Field(encode(e.path)) + (Field(encode(e.mode)) + (Field(encode(e.objectType)) + Field(encode(e.objectId))))
  }

  function Stream(encode: Codec, es: seq<Entry>): seq<Byte> {
    if es == [] then [] else Stream(encode, es[..|es| - 1]) + EntryStream(encode, es[|es| - 1])
  }

  predicate Fits(encode: Codec, e: Entry) {
    |encode(e.path)| < LENGTH_LIMIT && |encode(e.mode)| < LENGTH_LIMIT
    && |encode(e.objectType)| < LENGTH_LIMIT && |encode(e.objectId)| < LENGTH_LIMIT
  }

  ghost predicate Sorted(es: seq<Entry>) {
    forall i, j :: 0 <= i < j < |es| ==> Less(es[i].path, es[j].path)
  }

  ghost predicate Acceptable(encode: Codec, es: seq<Entry>) {
    && (forall e :: e in es ==> ValidPath(e.path) && Fits(encode, e))
    && Sorted(es)
  }

  /** The entries before the i-th are acceptable, and the i-th has this fault. */
  ghost predicate IsFirstFault(encode: Codec, es: seq<Entry>, i: int, error: Error) {
    && 0 <= i < |es| && Acceptable(encode, es[..i])
    && match error
       case UnsafePath => !ValidPath(es[i].path)
       case NotSorted => ValidPath(es[i].path) && i > 0 && !Less(es[i - 1].path, es[i].path)
       case TooLong => ValidPath(es[i].path) && (i > 0 ==> Less(es[i - 1].path, es[i].path)) && !Fits(encode, es[i])
  }

  lemma AcceptableGrows(encode: Codec, es: seq<Entry>, e: Entry)
    requires Acceptable(encode, es) && ValidPath(e.path) && Fits(encode, e)
    requires es != [] ==> Less(es[|es| - 1].path, e.path)
    ensures Acceptable(encode, es + [e])
  {
    forall k | 0 <= k < |es| ensures Less(es[k].path, e.path) {
      if k < |es| - 1 { LessTransitive(es[k].path, es[|es| - 1].path, e.path); }
    }
  }

  /** The hashed bytes of a manifest; it is refused unless its paths are safe and strictly sorted. */
  method DigestManifest(encode: Codec, es: seq<Entry>) returns (r: Result<seq<Byte>, Error>)
    ensures r.Ok? <==> Acceptable(encode, es)
    ensures r.Ok? ==> r.value == Stream(encode, es)
    ensures r.Err? ==> exists i :: IsFirstFault(encode, es, i, r.error)
  {
    var stream: seq<Byte>, previous: Option<string> := [], None;
    for i := 0 to |es|
      invariant stream == Stream(encode, es[..i]) && Acceptable(encode, es[..i])
      invariant previous == if i == 0 then None else Some(es[i - 1].path)
    {
      var e := es[i];
      assert es[..i + 1] == es[..i] + [e] && es[..i + 1][..i] == es[..i];
      if !ValidPath(e.path) {
        assert IsFirstFault(encode, es, i, UnsafePath);
        return Err(UnsafePath);
      }
      if previous.Some? && !Less(previous.value, e.path) {
        assert IsFirstFault(encode, es, i, NotSorted);
        return Err(NotSorted);
      }
      if !Fits(encode, e) {
        assert IsFirstFault(encode, es, i, TooLong);
        return Err(TooLong);
      }
      AcceptableGrows(encode, es[..i], e);
      previous := Some(e.path);
      stream := stream + EntryStream(encode, e);
    }
    assert es[..|es|] == es;
    return Ok(stream);
  }

  // ---- what the stream is ----

  /** The bytes after a big-endian count of them in eight bytes. */
  ghost predicate IsField(field: seq<Byte>, bytes: seq<Byte>) {
    |field| == 8 + |bytes| && NumberOf(field[..8]) == |bytes| && field[8..] == bytes
  }

  /** The fields of path, mode, type and id in turn. */
  ghost predicate IsEntryStream(encode: Codec, e: Entry, stream: seq<Byte>) {
    exists a, b, c, d ::
      && IsField(a, encode(e.path)) && IsField(b, encode(e.mode)) && IsField(c, encode(e.objectType)) && IsField(d, encode(e.objectId))
      && stream == a + (b + (c + d))
  }

  lemma FieldIs(bytes: seq<Byte>)
    requires |bytes| < LENGTH_LIMIT
    ensures IsField(Field(bytes), bytes)
  {
    assert Power256(8) == LENGTH_LIMIT by { assert Power256(4) == 0x1_0000_0000; }
    BigEndianValue(|bytes|, LENGTH_BYTES);
    assert Field(bytes)[..8] == BigEndian(|bytes|, LENGTH_BYTES);
  }

  lemma EntryStreamIs(encode: Codec, e: Entry)
    requires Fits(encode, e)
    ensures IsEntryStream(encode, e, EntryStream(encode, e))
  {
    FieldIs(encode(e.path));
    FieldIs(encode(e.mode));
    FieldIs(encode(e.objectType));
    FieldIs(encode(e.objectId));
  }

  /** The hashed bytes are the streams of the entries in their order. */
  lemma {:induction false} StreamIs(encode: Codec, es: seq<Entry>) returns (parts: seq<seq<Byte>>)
    requires forall e :: e in es ==> Fits(encode, e)
    ensures |parts| == |es| && forall i :: 0 <= i < |es| ==> IsEntryStream(encode, es[i], parts[i])
    ensures Stream(encode, es) == Concatenated(parts)
  {
    if es == [] {
      parts := [];
    } else {
      var rest := StreamIs(encode, es[1..]);
      EntryStreamIs(encode, es[0]);
      StreamFront(encode, es);
      parts := [EntryStream(encode, es[0])] + rest;
      assert parts[1..] == rest;
    }
  }

  ghost function Concatenated(parts: seq<seq<Byte>>): seq<Byte> {
    if parts == [] then [] else parts[0] + Concatenated(parts[1..])
  }

  // ---- unique decoding ----

  /** A field read off the end of equal streams is the same field when the streams before it have equal length. */
  lemma FieldCancels(a: seq<Byte>, rest: seq<Byte>, b: seq<Byte>, rest': seq<Byte>)
    requires |a| < LENGTH_LIMIT && |b| < LENGTH_LIMIT
    requires Field(a) + rest == Field(b) + rest'
    ensures a == b && rest == rest'
  {
    var x, y := Field(a) + rest, Field(b) + rest';
    assert x[..LENGTH_BYTES] == BigEndian(|a|, LENGTH_BYTES) && y[..LENGTH_BYTES] == BigEndian(|b|, LENGTH_BYTES);
    assert Power256(8) == LENGTH_LIMIT by { assert Power256(4) == 0x1_0000_0000; }
    BigEndianValue(|a|, LENGTH_BYTES);
    BigEndianValue(|b|, LENGTH_BYTES);
    assert x[LENGTH_BYTES..][..|a|] == a && y[LENGTH_BYTES..][..|b|] == b;
    assert x[LENGTH_BYTES + |a|..] == rest && y[LENGTH_BYTES + |b|..] == rest';
  }

  lemma RegroupFields(a: seq<Byte>, b: seq<Byte>, c: seq<Byte>, d: seq<Byte>, rest: seq<Byte>)
    ensures a + (b + (c + d)) + rest == a + (b + (c + (d + rest)))
  {
    assert c + d + rest == c + (d + rest);
    assert b + (c + d) + rest == b + (c + d + rest);
    assert a + (b + (c + d)) + rest == a + (b + (c + d) + rest);
  }

  lemma EntryCancels(encode: Codec, d: Entry, rest: seq<Byte>, e: Entry, rest': seq<Byte>)
    requires Injective(encode) && Fits(encode, d) && Fits(encode, e)
    requires EntryStream(encode, d) + rest == EntryStream(encode, e) + rest'
    ensures d == e && rest == rest'
  {
    var d1, e1 := Field(encode(d.objectId)) + rest, Field(encode(e.objectId)) + rest';
    var d2, e2 := Field(encode(d.objectType)) + d1, Field(encode(e.objectType)) + e1;
    var d3, e3 := Field(encode(d.mode)) + d2, Field(encode(e.mode)) + e2;
    RegroupFields(Field(encode(d.path)), Field(encode(d.mode)), Field(encode(d.objectType)), Field(encode(d.objectId)), rest);
    RegroupFields(Field(encode(e.path)), Field(encode(e.mode)), Field(encode(e.objectType)), Field(encode(e.objectId)), rest');
    FieldCancels(encode(d.path), d3, encode(e.path), e3);
    FieldCancels(encode(d.mode), d2, encode(e.mode), e2);
    FieldCancels(encode(d.objectType), d1, encode(e.objectType), e1);
    FieldCancels(encode(d.objectId), rest, encode(e.objectId), rest');
  }

  lemma Associate(a: seq<Byte>, b: seq<Byte>, c: seq<Byte>)
    ensures a + b + c == a + (b + c)
  {
  }

  lemma {:induction false} StreamFront(encode: Codec, es: seq<Entry>)
    requires es != []
    ensures Stream(encode, es) == EntryStream(encode, es[0]) + Stream(encode, es[1..])
  {
    if |es| == 1 {
      assert es[..0] == [] && es[1..] == [];
    } else {
      var older := es[..|es| - 1];
      StreamFront(encode, older);
      assert older[1..] == es[1..][..|es| - 2] && older[0] == es[0] && es[1..][|es| - 2] == es[|es| - 1];
      Associate(EntryStream(encode, es[0]), Stream(encode, older[1..]), EntryStream(encode, es[|es| - 1]));
    }
  }

  lemma EmptyStream(encode: Codec, es: seq<Entry>)
    ensures Stream(encode, es) == [] <==> es == []
  {
  }

  /** Equal streams start with the same entry and go on alike. */
  lemma FirstEntryIsRead(encode: Codec, a: seq<Entry>, b: seq<Entry>)
    requires Injective(encode) && a != [] && b != [] && Fits(encode, a[0]) && Fits(encode, b[0])
    requires Stream(encode, a) == Stream(encode, b)
    ensures a[0] == b[0] && Stream(encode, a[1..]) == Stream(encode, b[1..])
  {
    StreamFront(encode, a);
    StreamFront(encode, b);
    EntryCancels(encode, a[0], Stream(encode, a[1..]), b[0], Stream(encode, b[1..]));
  }

  /** The hashed stream determines the manifest: with a collision-free hash, equal digests mean equal manifests. */
  lemma {:induction false} StreamIsUniquelyDecodable(encode: Codec, a: seq<Entry>, b: seq<Entry>)
    requires Injective(encode) && (forall e :: e in a ==> Fits(encode, e)) && (forall e :: e in b ==> Fits(encode, e))
    requires Stream(encode, a) == Stream(encode, b)
    ensures a == b
  {
    EmptyStream(encode, a);
    EmptyStream(encode, b);
    if a != [] && b != [] {
      FirstEntryIsRead(encode, a, b);
      StreamIsUniquelyDecodable(encode, a[1..], b[1..]);
      SameParts(a, b);
    }
  }

  lemma SameParts(a: seq<Entry>, b: seq<Entry>)
    requires a != [] && b != [] && a[0] == b[0] && a[1..] == b[1..]
    ensures a == b
  {
    assert a == [a[0]] + a[1..] && b == [b[0]] + b[1..];
  }

  // ---- the input groups of a component ----

  datatype Group = Configuration | Fixtures | Source | Tests | Tools

  function InputGroup(path: string): Group {
    var parts := Split(path, '/');
    var name := parts[|parts| - 1];
    if "tests" in parts || "tests_ci" in parts || "playwright_tests/" <= path || "ci/tests/" <= path
       || "test_" <= name || name == "conftest.py" then Tests
    else if "fixtures" in parts || "golden" in parts || "snapshots" in parts then Fixtures
    else if path in {".python-version", "Dockerfile", "Makefile", "scripts/ci.py", "pyproject.toml", "uv.lock"}
            || ".github/workflows/" <= path then Tools
    else if "ci/" <= path || "settings" in parts
            || EndsWith(name, ".toml") || EndsWith(name, ".yaml") || EndsWith(name, ".yml") then Configuration
    else Source
  }

  function Filter(es: seq<Entry>, keep: Entry -> bool): seq<Entry> {
    if es == [] then []
    else Filter(es[..|es| - 1], keep) + (if keep(es[|es| - 1]) then [es[|es| - 1]] else [])
  }

  lemma {:induction false} FilterKeeps(es: seq<Entry>, keep: Entry -> bool)
    ensures forall e :: e in Filter(es, keep) <==> e in es && keep(e)
    ensures Sorted(es) ==> Sorted(Filter(es, keep))
  {
    if es != [] {
      var older, last := es[..|es| - 1], es[|es| - 1];
      FilterKeeps(older, keep);
      assert forall e :: e in es <==> e in older || e == last;
      if Sorted(es) {
        assert Sorted(older);
        forall e | e in older ensures Less(e.path, last.path) {
          var k :| 0 <= k < |older| && older[k] == e;
          assert es[k] == e;
        }
      }
    }
  }

  datatype Inputs = Inputs(manifest: seq<Entry>, aggregate: seq<Byte>, groups: map<Group, (nat, seq<Byte>)>)

  const GROUPS: seq<Group> := [Configuration, Fixtures, Source, Tests, Tools]

  function PathTest(matches: string -> bool): Entry -> bool {
    (e: Entry) => matches(e.path)
  }

  function GroupTest(g: Group): Entry -> bool {
    (e: Entry) => InputGroup(e.path) == g
  }

  function Selected(es: seq<Entry>, matches: string -> bool): seq<Entry> {
    Filter(es, PathTest(matches))
  }

  function InGroup(es: seq<Entry>, g: Group): seq<Entry> {
    Filter(es, GroupTest(g))
  }

  /** The count of a group and the bytes its digest hashes. */
  function GroupDigest(encode: Codec, selected: seq<Entry>, g: Group): (nat, seq<Byte>) {
    (|InGroup(selected, g)|, Stream(encode, InGroup(selected, g)))
  }

  lemma PartsAreAcceptable(encode: Codec, es: seq<Entry>, matches: string -> bool, g: Group)
    requires Acceptable(encode, es)
    ensures Acceptable(encode, Selected(es, matches)) && Acceptable(encode, InGroup(Selected(es, matches), g))
  {
    FilterKeeps(es, PathTest(matches));
    FilterKeeps(Selected(es, matches), GroupTest(g));
  }

  /** A component's inputs: no part of an accepted manifest is ever refused, in whole or by group. */
  method ComponentInputs(encode: Codec, es: seq<Entry>, matches: string -> bool) returns (r: Result<Inputs, Error>)
    ensures Acceptable(encode, es) ==> r.Ok?
    ensures r.Ok? ==>
              var selected := Selected(es, matches);
              && r.value.manifest == selected
              && r.value.aggregate == Stream(encode, selected)
              && forall g :: g in GROUPS ==> g in r.value.groups && r.value.groups[g] == GroupDigest(encode, selected, g)
  {
    var selected := Selected(es, matches);
    var groups: map<Group, (nat, seq<Byte>)> := map[];
    for i := 0 to |GROUPS|
      invariant forall g :: g in GROUPS[..i] ==> g in groups && groups[g] == GroupDigest(encode, selected, g)
    {
      var g := GROUPS[i];
      assert GROUPS[..i + 1] == GROUPS[..i] + [g];
      if Acceptable(encode, es) { PartsAreAcceptable(encode, es, matches, g); }
      var digest := DigestManifest(encode, InGroup(selected, g));
      if digest.Err? {
        return Err(digest.error);
      }
      groups := groups[g := (|InGroup(selected, g)|, digest.value)];
    }
    assert GROUPS[..|GROUPS|] == GROUPS;
    if Acceptable(encode, es) { PartsAreAcceptable(encode, es, matches, Source); }
    var aggregate := DigestManifest(encode, selected);
    if aggregate.Err? {
      return Err(aggregate.error);
    }
    return Ok(Inputs(selected, aggregate.value, groups));
  }

  /** The five groups split the selected entries: an entry is in its own group as often as in the whole, and in no other. */
  lemma {:induction false} GroupsPartition(es: seq<Entry>, g: Group)
    ensures g in GROUPS
    ensures forall e :: multiset(InGroup(es, g))[e] == if InputGroup(e.path) == g then multiset(es)[e] else 0
  {
    if es != [] {
      var older, last := es[..|es| - 1], es[|es| - 1];
      GroupsPartition(older, g);
      assert es == older + [last];
    }
  }

  /** The selected entries are those with a matching path, as often as in the whole and in its order. */
  lemma {:induction false} SelectedIs(es: seq<Entry>, matches: string -> bool)
    ensures forall e :: multiset(Selected(es, matches))[e] == if matches(e.path) then multiset(es)[e] else 0
    ensures Sorted(es) ==> Sorted(Selected(es, matches))
  {
    FilterKeeps(es, PathTest(matches));
    if es != [] {
      var older, last := es[..|es| - 1], es[|es| - 1];
      SelectedIs(older, matches);
      assert es == older + [last];
    }
  }

  // ---- what a group is ----

  ghost predicate IsTest(path: string) {
    || "tests" in Split(path, '/') || "tests_ci" in Split(path, '/')
    || (exists rest :: path == "playwright_tests/" + rest || path == "ci/tests/" + rest)
    || exists folders, name :: Split(path, '/') == folders + [name] && (name == "conftest.py" || exists rest :: name == "test_" + rest)
  }

  ghost predicate IsFixture(path: string) {
    exists part :: part in Split(path, '/') && (part == "fixtures" || part == "golden" || part == "snapshots")
  }

  ghost predicate IsTool(path: string) {
    || path == ".python-version" || path == "Dockerfile" || path == "Makefile" || path == "scripts/ci.py"
    || path == "pyproject.toml" || path == "uv.lock" || exists rest :: path == ".github/workflows/" + rest
  }

  ghost predicate IsConfiguration(path: string) {
    || "settings" in Split(path, '/') || (exists rest :: path == "ci/" + rest)
    || exists folders, front :: Split(path, '/') == folders + [front + ".toml"] || Split(path, '/') == folders + [front + ".yaml"]
                                || Split(path, '/') == folders + [front + ".yml"]
  }

  /** The first of these that a path is decides its group; a path that is none of them is source. */
  ghost predicate IsOfGroup(path: string, g: Group) {
    match g
    case Tests => IsTest(path)
    case Fixtures => !IsTest(path) && IsFixture(path)
    case Tools => !IsTest(path) && !IsFixture(path) && IsTool(path)
    case Configuration => !IsTest(path) && !IsFixture(path) && !IsTool(path) && IsConfiguration(path)
    case Source => !IsTest(path) && !IsFixture(path) && !IsTool(path) && !IsConfiguration(path)
  }

  lemma StartIff(s: string, head: string)
    ensures head <= s <==> exists rest :: s == head + rest
  {
    if head <= s { assert s == head + s[|head|..]; }
  }

  lemma EndIff(s: string, tail: string)
    ensures EndsWith(s, tail) <==> exists front :: s == front + tail
  {
    if EndsWith(s, tail) { assert s == s[..|s| - |tail|] + tail; }
    if front :| s == front + tail { assert s[|s| - |tail|..] == tail; }
  }

  lemma LastPartIs(path: string)
    ensures forall folders, name :: Split(path, '/') == folders + [name] <==> folders == Front(path) && name == LastPart(path)
  {
    var parts := Split(path, '/');
    assert parts == Front(path) + [LastPart(path)];
    forall folders, name | parts == folders + [name] ensures folders == Front(path) && name == LastPart(path) {
      assert parts[..|parts| - 1] == folders && parts[|parts| - 1] == name;
    }
  }

  ghost function Front(path: string): seq<string> {
    Split(path, '/')[..|Split(path, '/')| - 1]
  }

  ghost function LastPart(path: string): string {
    Split(path, '/')[|Split(path, '/')| - 1]
  }

  lemma TestIff(path: string)
    ensures IsTest(path) <==>
              || "tests" in Split(path, '/') || "tests_ci" in Split(path, '/') || "playwright_tests/" <= path || "ci/tests/" <= path
              || "test_" <= LastPart(path) || LastPart(path) == "conftest.py"
  {
    LastPartIs(path);
    StartIff(path, "playwright_tests/");
    StartIff(path, "ci/tests/");
    StartIff(LastPart(path), "test_");
    assert Split(path, '/') == Front(path) + [LastPart(path)];
  }

  lemma ConfigurationIff(path: string)
    ensures IsConfiguration(path) <==>
              || "settings" in Split(path, '/') || "ci/" <= path
              || EndsWith(LastPart(path), ".toml") || EndsWith(LastPart(path), ".yaml") || EndsWith(LastPart(path), ".yml")
  {
    StartIff(path, "ci/");
    EndIff(LastPart(path), ".toml");
    EndIff(LastPart(path), ".yaml");
    EndIff(LastPart(path), ".yml");
    LastPartIs(path);
    assert Split(path, '/') == Front(path) + [LastPart(path)];
  }

  lemma FixtureIff(path: string)
    ensures IsFixture(path) <==> "fixtures" in Split(path, '/') || "golden" in Split(path, '/') || "snapshots" in Split(path, '/')
  {
  }

  lemma ToolIff(path: string)
    ensures IsTool(path)
       <==> path in {".python-version", "Dockerfile", "Makefile", "scripts/ci.py", "pyproject.toml", "uv.lock"} || ".github/workflows/" <= path
  {
    StartIff(path, ".github/workflows/");
  }

  /** The group of a path, test by test. */
  lemma GroupChain(path: string)
    ensures InputGroup(path) ==
              if IsTest(path) then Tests else if IsFixture(path) then Fixtures else if IsTool(path) then Tools
              else if IsConfiguration(path) then Configuration else Source
  {
    TestIff(path);
    FixtureIff(path);
    ToolIff(path);
    ConfigurationIff(path);
  }

  /** A path is in the group that its folders and its name say. */
  lemma GroupIff(path: string, g: Group)
    ensures InputGroup(path) == g <==> IsOfGroup(path, g)
  {
    GroupChain(path);
  }
}
