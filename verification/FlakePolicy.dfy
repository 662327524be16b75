/**
 The one-line summary of a quarantine session: printed by the plugin, parsed back and
 judged by the report.
 */
module FlakePolicy {
  import opened Wrappers
  import opened Text
  import opened Words
  import opened FlakePlugin

  // The seven fields in printing order, the completion flag last.
  const FIELD_COUNT: nat := 7
  const COMPLETE_FIELD: nat := 6

  // The marker that starts the line, and the names of the fields.
  datatype Format = Format(marker: string, names: seq<string>)

  const POLICY_FORMAT := Format("DTC_FLAKE_POLICY_V1",
    ["attempted", "passed", "failed", "skipped", "rerun", "quarantined", "complete"])

  /** Distinct non-empty words of visible characters without an equals sign. */
  ghost predicate IsFormat(f: Format) {
    && |f.names| == FIELD_COUNT && IsVisible(f.marker)
    && (forall i :: 0 <= i < FIELD_COUNT ==> IsVisible(f.names[i]) && '=' !in f.names[i])
    && (forall i, j :: 0 <= i < j < FIELD_COUNT ==> f.names[i] != f.names[j])
  }

  predicate IsVisible(s: string) {
    s != [] && forall i :: 0 <= i < |s| ==> '!' <= s[i] <= '~'
  }

  // What counts as white space and as a digit, and which number a text of digits converts to, if any.
  datatype TextRules = TextRules(isSpace: char -> bool, isDigit: char -> bool, numeral: string -> Option<nat>)

  // Decimals with more digits are converted neither to a number nor from one.
  const CONVERSION_LIMIT: nat := 4300

  /**
   The blank is white space and no visible ASCII character is; the ASCII digits are digits, and the
   decimals of numbers within the limit convert. Which other digits there are, and what they convert to, is open.
   */
  ghost predicate IsTextRules(t: TextRules) {
    && t.isSpace(' ') && (forall c: char :: '!' <= c <= '~' ==> !t.isSpace(c))
    && (forall c: char :: '0' <= c <= '9' ==> t.isDigit(c))
    && forall n: nat :: |Decimal(n)| <= CONVERSION_LIMIT ==> t.numeral(Decimal(n)) == Some(n)
  }

  /** ASCII digits read as decimals are such rules. */
  lemma AsciiRules(t: TextRules)
    requires forall c: char :: t.isSpace(c) <==> c == ' '
    requires forall c: char :: t.isDigit(c) <==> '0' <= c <= '9'
    requires forall s: string :: t.numeral(s) == if IsDigits(s) && |s| <= CONVERSION_LIMIT then Some(Value(s)) else None
    ensures IsTextRules(t)
  {
    forall n: nat | |Decimal(n)| <= CONVERSION_LIMIT ensures t.numeral(Decimal(n)) == Some(n) { ValueOfDecimal(n); }
  }

  lemma PolicyFormatIsFormat()
    ensures IsFormat(POLICY_FORMAT)
  {
    NamesAreVisible();
    assert IsVisible("DTC_FLAKE_POLICY_V1");
    var n := POLICY_FORMAT.names;
    assert n[0][0] == 'a' && n[1][0] == 'p' && n[2][0] == 'f' && n[3][0] == 's' && n[4][0] == 'r' && n[5][0] == 'q' && n[6][0] == 'c';
  }

  lemma NamesAreVisible()
    ensures forall i :: 0 <= i < FIELD_COUNT ==> IsVisible(POLICY_FORMAT.names[i]) && '=' !in POLICY_FORMAT.names[i]
  {
    assert IsVisible("attempted") && IsVisible("passed") && IsVisible("failed") && IsVisible("skipped");
    assert IsVisible("rerun") && IsVisible("quarantined") && IsVisible("complete");
  }

  // ---- printing ----

  function FieldValue(s: Summary, i: nat): nat
    requires i < FIELD_COUNT
  {
    match i
    case 0 => s.attempted
    case 1 => s.passed
    case 2 => s.failed
    case 3 => s.skipped
    case 4 => s.rerun
    case 5 => s.quarantined
    case _ => if s.complete then 1 else 0
  }

  function PrintedField(f: Format, s: Summary, i: nat): string
    requires |f.names| == FIELD_COUNT && i < FIELD_COUNT
  {
    f.names[i] + "=" + Decimal(FieldValue(s, i))
  }

  function PrintedFields(f: Format, s: Summary, i: nat): seq<string>
    requires |f.names| == FIELD_COUNT && i <= FIELD_COUNT
    decreases FIELD_COUNT - i
  {
    if i == FIELD_COUNT then [] else [PrintedField(f, s, i)] + PrintedFields(f, s, i + 1)
  }

  /** The summary line of the plugin. */
  function Printed(f: Format, s: Summary): string
    requires |f.names| == FIELD_COUNT
  {
    Join([f.marker] + PrintedFields(f, s, 0), ' ')
  }

  /** The line holds the marker and every count under its name, in this order. */
  lemma PrintedIs(f: Format, s: Summary)
    requires |f.names| == FIELD_COUNT
    ensures Printed(f, s) ==
              Join([f.marker,
                    f.names[0] + "=" + Decimal(s.attempted), f.names[1] + "=" + Decimal(s.passed), f.names[2] + "=" + Decimal(s.failed),
                    f.names[3] + "=" + Decimal(s.skipped), f.names[4] + "=" + Decimal(s.rerun), f.names[5] + "=" + Decimal(s.quarantined),
                    f.names[6] + "=" + (if s.complete then "1" else "0")], ' ')
  {
    assert Decimal(0) == "0" && Decimal(1) == "1";
    PrintedFrom(f, s);
    var fields := PrintedFields(f, s, 0);
    assert [f.marker] + fields == [f.marker, fields[0], fields[1], fields[2], fields[3], fields[4], fields[5], fields[6]];
  }

  lemma PrintedFrom(f: Format, s: Summary)
    requires |f.names| == FIELD_COUNT
    ensures PrintedFields(f, s, 0) ==
              [PrintedField(f, s, 0), PrintedField(f, s, 1), PrintedField(f, s, 2), PrintedField(f, s, 3),
               PrintedField(f, s, 4), PrintedField(f, s, 5), PrintedField(f, s, 6)]
  {
    assert PrintedFields(f, s, 7) == [];
    assert PrintedFields(f, s, 6) == [PrintedField(f, s, 6)];
    assert PrintedFields(f, s, 5) == [PrintedField(f, s, 5), PrintedField(f, s, 6)];
    assert PrintedFields(f, s, 4) == [PrintedField(f, s, 4), PrintedField(f, s, 5), PrintedField(f, s, 6)];
  }

  // ---- parsing ----

  /** The field with this name. */
  function FieldNamed(names: seq<string>, key: string): (r: Option<nat>)
    ensures r.Some? ==> r.value < |names| && names[r.value] == key
    ensures r.None? ==> key !in names
  {
    if names == [] then None
    else if names[|names| - 1] == key then Some(|names| - 1)
    else FieldNamed(names[..|names| - 1], key)
  }

  /** What reading comes to: a value, a refusal that the report turns into a verdict, or an error that nothing catches. */
  datatype Reading<+T> = Read(value: T) | Refused | Raised

  predicate IsAccepted(t: TextRules, raw: string) {
    raw != [] && forall i :: 0 <= i < |raw| ==> t.isDigit(raw[i])
  }

  /** Reading one `name=value` field into the values read so far. */
  function ParseField(t: TextRules, f: Format, field: string, values: map<nat, nat>): Reading<map<nat, nat>>
    requires |f.names| == FIELD_COUNT
  {
    var key := Before(field, '=');
    var raw := After(field, '=');
    var i := FieldNamed(f.names, key);
    if |key| == |field| || key == [] then Refused
    else if i.None? || i.value in values then Refused
    else if i.value == COMPLETE_FIELD then
      if raw == "0" then Read(values[i.value := 0]) else if raw == "1" then Read(values[i.value := 1]) else Refused
    else if !IsAccepted(t, raw) then Refused
    else if t.numeral(raw).None? then Raised
    else Read(values[i.value := t.numeral(raw).value])
  }

  function ParseFields(t: TextRules, f: Format, fields: seq<string>, values: map<nat, nat>): Reading<map<nat, nat>>
    requires |f.names| == FIELD_COUNT
    decreases |fields|
  {
    if fields == [] then Read(values)
    else
      var next := ParseField(t, f, fields[0], values);
      if !next.Read? then next else ParseFields(t, f, fields[1..], next.value)
  }

  predicate HasEveryField(values: map<nat, nat>) {
    forall i: nat :: i < FIELD_COUNT ==> i in values
  }

  function SummaryFrom(values: map<nat, nat>): Reading<Summary> {
    if !HasEveryField(values) then Refused
    else
      var s := Summary(values[0], values[1], values[2], values[3], values[4], values[5], values[6] == 1);
      if s.attempted != s.passed + s.failed + s.skipped then Refused else Read(s)
  }

  function PolicyLines(isSpace: char -> bool, f: Format, lines: seq<string>): seq<string> {
    if lines == [] then []
    else
      var line := Stripped(isSpace, lines[0]);
      (if f.marker <= line then [line] else []) + PolicyLines(isSpace, f, lines[1..])
  }

  /** The words after the marker of the one summary line, if there is one. */
  function FieldsIn(isSpace: char -> bool, f: Format, lines: seq<string>): Option<seq<string>> {
    var policyLines := PolicyLines(isSpace, f, lines);
    if |policyLines| != 1 then None
    else
      var fields := WordsFrom(isSpace, policyLines[0], 0);
      if fields == [] || fields[0] != f.marker then None else Some(fields[1..])
  }

  /** The counts in an output, given as its lines; refused when they are missing or inconsistent. */
  function Parsed(t: TextRules, f: Format, lines: seq<string>): Reading<Summary>
    requires |f.names| == FIELD_COUNT
  {
    var fields := FieldsIn(t.isSpace, f, lines);
    if fields.None? then Refused
    else
      match ParseFields(t, f, fields.value, map[])
      case Read(values) => SummaryFrom(values)
      case Refused => Refused
      case Raised => Raised
  }

  method ParsePolicyOutput(t: TextRules, f: Format, lines: seq<string>) returns (r: Reading<Summary>)
    requires |f.names| == FIELD_COUNT
    ensures r == Parsed(t, f, lines)
  {
    var policyLines := PolicyLines(t.isSpace, f, lines);
    if |policyLines| != 1 {
      return Refused;
    }
    var fields := WordsFrom(t.isSpace, policyLines[0], 0);
    if fields == [] || fields[0] != f.marker {
      return Refused;
    }
    var values: map<nat, nat> := map[];
    for k := 1 to |fields|
      invariant ParseFields(t, f, fields[k..], values) == ParseFields(t, f, fields[1..], map[])
    {
      assert fields[k..][0] == fields[k] && fields[k..][1..] == fields[k + 1..];
      var next := ParseField(t, f, fields[k], values);
      if next.Refused? {
        return Refused;
      }
      if next.Raised? {
        return Raised;
      }
      values := next.value;
    }
    return SummaryFrom(values);
  }

  // ---- printing and parsing ----

  lemma FieldNamedIs(names: seq<string>, i: nat)
    requires i < |names| && forall j, k :: 0 <= j < k < |names| ==> names[j] != names[k]
    ensures FieldNamed(names, names[i]) == Some(i)
  {
    var r := FieldNamed(names, names[i]);
    assert names[i] in names;
  }

  /** The counts of a summary that can be printed. */
  ghost predicate IsPrintable(s: Summary) {
    forall i :: 0 <= i < COMPLETE_FIELD ==> |Decimal(FieldValue(s, i))| <= CONVERSION_LIMIT
  }

  lemma FieldIsRead(t: TextRules, f: Format, s: Summary, i: nat, values: map<nat, nat>)
    requires IsTextRules(t) && IsFormat(f) && IsPrintable(s) && i < FIELD_COUNT && i !in values
    ensures ParseField(t, f, PrintedField(f, s, i), values) == Read(values[i := FieldValue(s, i)])
  {
    var v := FieldValue(s, i);
    BeforeSeparator(f.names[i], '=', Decimal(v));
    FieldNamedIs(f.names, i);
    if i == COMPLETE_FIELD { assert Decimal(0) == "0" && Decimal(1) == "1"; }
  }

  /** The values of the first `i` fields. */
  function ValuesBelow(s: Summary, i: nat): map<nat, nat>
    requires i <= FIELD_COUNT
  {
    map k: nat | k < i :: FieldValue(s, k)
  }

  lemma {:induction false} FieldsAreRead(t: TextRules, f: Format, s: Summary, i: nat)
    requires IsTextRules(t) && IsFormat(f) && IsPrintable(s) && i <= FIELD_COUNT
    ensures ParseFields(t, f, PrintedFields(f, s, i), ValuesBelow(s, i)) == Read(ValuesBelow(s, FIELD_COUNT))
    decreases FIELD_COUNT - i
  {
    if i < FIELD_COUNT {
      FieldIsRead(t, f, s, i, ValuesBelow(s, i));
      assert ValuesBelow(s, i)[i := FieldValue(s, i)] == ValuesBelow(s, i + 1);
      assert PrintedFields(f, s, i)[1..] == PrintedFields(f, s, i + 1);
      FieldsAreRead(t, f, s, i + 1);
    }
  }

  lemma FieldIsWord(t: TextRules, f: Format, s: Summary, i: nat)
    requires IsFormat(f) && IsTextRules(t) && i < FIELD_COUNT
    ensures IsWord(t.isSpace, PrintedField(f, s, i))
  {
    var digits := Decimal(FieldValue(s, i));
    assert forall k :: 0 <= k < |digits| ==> !t.isSpace(digits[k]);
    assert !t.isSpace('=');
  }

  lemma {:induction false} FieldsAreWords(t: TextRules, f: Format, s: Summary, i: nat)
    requires IsFormat(f) && IsTextRules(t) && i <= FIELD_COUNT
    ensures forall w :: w in PrintedFields(f, s, i) ==> IsWord(t.isSpace, w)
    decreases FIELD_COUNT - i
  {
    if i < FIELD_COUNT {
      FieldIsWord(t, f, s, i);
      FieldsAreWords(t, f, s, i + 1);
    }
  }

  /** A line of the marker and further words is found and split into its words. */
  lemma LineIsFound(t: TextRules, f: Format, fields: seq<string>)
    requires IsFormat(f) && IsTextRules(t) && forall w :: w in fields ==> IsWord(t.isSpace, w)
    ensures var line := Join([f.marker] + fields, ' ');
            && Stripped(t.isSpace, line) == line && f.marker <= line
            && WordsFrom(t.isSpace, line, 0) == [f.marker] + fields
  {
    var words := [f.marker] + fields;
    JoinEnds(t.isSpace, words);
    WordsOfJoin(t.isSpace, words, Join(words, ' '), 0);
  }

  lemma {:induction false} PolicyLinesConcat(isSpace: char -> bool, f: Format, a: seq<string>, b: seq<string>)
    ensures PolicyLines(isSpace, f, a + b) == PolicyLines(isSpace, f, a) + PolicyLines(isSpace, f, b)
  {
    if a == [] {
      assert a + b == b;
    } else {
      assert (a + b)[1..] == a[1..] + b;
      PolicyLinesConcat(isSpace, f, a[1..], b);
    }
  }

  /** The output of a session: its summary line among other lines, none of which looks like one. */
  ghost predicate IsOutput(isSpace: char -> bool, f: Format, s: Summary, lines: seq<string>)
    requires |f.names| == FIELD_COUNT
  {
    && IsPrintable(s)
    && exists before, after :: lines == before + [Printed(f, s)] + after
                               && PolicyLines(isSpace, f, before) == [] && PolicyLines(isSpace, f, after) == []
  }

  /** A printed summary parses back to exactly its counts when they add up, and is refused when they do not. */
  lemma ParsedOutput(t: TextRules, f: Format, s: Summary, lines: seq<string>)
    requires IsFormat(f) && IsTextRules(t) && IsOutput(t.isSpace, f, s, lines)
    ensures Parsed(t, f, lines) == if s.attempted == s.passed + s.failed + s.skipped then Read(s) else Refused
  {
    var before, after :| lines == before + [Printed(f, s)] + after
                         && PolicyLines(t.isSpace, f, before) == [] && PolicyLines(t.isSpace, f, after) == [];
    FieldsAreWords(t, f, s, 0);
    FieldsAreFound(t, f, before, PrintedFields(f, s, 0), after);
    assert ValuesBelow(s, 0) == map[];
    FieldsAreRead(t, f, s, 0);
    FromValues(s);
  }

  lemma FieldsAreFound(t: TextRules, f: Format, before: seq<string>, fields: seq<string>, after: seq<string>)
    requires IsFormat(f) && IsTextRules(t) && forall w :: w in fields ==> IsWord(t.isSpace, w)
    requires PolicyLines(t.isSpace, f, before) == [] && PolicyLines(t.isSpace, f, after) == []
    ensures FieldsIn(t.isSpace, f, before + [Join([f.marker] + fields, ' ')] + after) == Some(fields)
  {
    LineIsFound(t, f, fields);
    OneLine(t.isSpace, f, before, Join([f.marker] + fields, ' '), after);
    assert ([f.marker] + fields)[1..] == fields;
  }

  lemma OneLine(isSpace: char -> bool, f: Format, before: seq<string>, line: string, after: seq<string>)
    requires PolicyLines(isSpace, f, before) == [] && PolicyLines(isSpace, f, after) == []
    requires Stripped(isSpace, line) == line && f.marker <= line
    ensures PolicyLines(isSpace, f, before + [line] + after) == [line]
  {
    PolicyLinesConcat(isSpace, f, before + [line], after);
    PolicyLinesConcat(isSpace, f, before, [line]);
    assert PolicyLines(isSpace, f, [line]) == [line] + PolicyLines(isSpace, f, []);
  }

  lemma FromValues(s: Summary)
    ensures SummaryFrom(ValuesBelow(s, FIELD_COUNT)) == if s.attempted == s.passed + s.failed + s.skipped then Read(s) else Refused
  {
    var v := ValuesBelow(s, FIELD_COUNT);
    assert v[0] == s.attempted && v[1] == s.passed && v[2] == s.failed && v[3] == s.skipped && v[4] == s.rerun
        && v[5] == s.quarantined && v[6] == if s.complete then 1 else 0;
  }

  /** For every session the printed line parses back to its counts exactly when every selected test has an outcome. */
  lemma SessionParsesIff(t: TextRules, f: Format, events: seq<Event>, items: seq<Item>, exitStatus: int, lines: seq<string>)
    requires IsFormat(f) && IsTextRules(t) && IsSession(events, items)
    requires IsOutput(t.isSpace, f, SummaryOf(Run(events), exitStatus), lines)
    ensures Parsed(t, f, lines) == Read(SummaryOf(Run(events), exitStatus))
        <==> forall item :: item in items ==> item.id in Run(events).outcomes
  {
    ParsedOutput(t, f, SummaryOf(Run(events), exitStatus), lines);
    SessionAddsUpIff(events, items, exitStatus);
  }

  // ---- when reading raises ----

  /** The field gives `raw` under the name. */
  ghost predicate Gives(field: string, name: string, raw: string) {
    field == name + "=" + raw
  }

  /** No field before the k-th gives the name. */
  ghost predicate IsNew(fields: seq<string>, k: nat, name: string)
    requires k <= |fields|
  {
    forall j, raw :: 0 <= j < k ==> !Gives(fields[j], name, raw)
  }

  /** The k-th field is a count, given for the first time, whose accepted digits do not convert. */
  ghost predicate DoesNotConvert(t: TextRules, f: Format, fields: seq<string>, k: nat)
    requires |f.names| == FIELD_COUNT && k < |fields|
  {
    exists i: nat, raw :: i < COMPLETE_FIELD && Gives(fields[k], f.names[i], raw) && IsNew(fields, k, f.names[i])
                          && IsAccepted(t, raw) && t.numeral(raw) == None
  }

  ghost predicate IsValue(t: TextRules, i: nat, raw: string) {
    if i == COMPLETE_FIELD then raw == "0" || raw == "1" else IsAccepted(t, raw) && t.numeral(raw) != None
  }

  /** The k-th field is given for the first time, and is a count that converts or a completion flag. */
  ghost predicate IsGood(t: TextRules, f: Format, fields: seq<string>, k: nat)
    requires |f.names| == FIELD_COUNT && k < |fields|
  {
    exists i: nat, raw :: i < FIELD_COUNT && Gives(fields[k], f.names[i], raw) && IsNew(fields, k, f.names[i]) && IsValue(t, i, raw)
  }

  /** From `k` on the first field that is not good is a count that does not convert. */
  ghost predicate BreaksFrom(t: TextRules, f: Format, fields: seq<string>, k: nat)
    requires |f.names| == FIELD_COUNT
  {
    exists j :: k <= j < |fields| && DoesNotConvert(t, f, fields, j) && forall m :: k <= m < j ==> IsGood(t, f, fields, m)
  }

  /** The summary line of the output breaks off at digits that do not convert. */
  ghost predicate BreaksOff(t: TextRules, f: Format, lines: seq<string>)
    requires |f.names| == FIELD_COUNT
  {
    var fields := FieldsIn(t.isSpace, f, lines);
    fields.Some? && BreaksFrom(t, f, fields.value, 0)
  }

  /** The values are those of the names given before the k-th field. */
  ghost predicate HasGiven(f: Format, fields: seq<string>, k: nat, values: map<nat, nat>)
    requires |f.names| == FIELD_COUNT && k <= |fields|
  {
    forall i: nat :: i < FIELD_COUNT ==> (i !in values <==> IsNew(fields, k, f.names[i]))
  }

  lemma PartsOfField(field: string)
    requires |Before(field, '=')| < |field|
    ensures field == Before(field, '=') + "=" + After(field, '=')
  {
    var n := |Before(field, '=')|;
    assert field == field[..n] + [field[n]] + field[n + 1..];
  }

  lemma GivesIff(field: string, name: string, raw: string)
    requires '=' !in name
    ensures Gives(field, name, raw) <==> Before(field, '=') == name && |name| < |field| && After(field, '=') == raw
  {
    if Gives(field, name, raw) { BeforeSeparator(name, '=', raw); }
    if |Before(field, '=')| < |field| { PartsOfField(field); }
  }

  /** At most one name and value are given by a field. */
  lemma GivenByOne(f: Format, field: string, i: nat, raw: string, j: nat, other: string)
    requires IsFormat(f) && i < FIELD_COUNT && j < FIELD_COUNT
    requires Gives(field, f.names[i], raw) && Gives(field, f.names[j], other)
    ensures i == j && raw == other
  {
    GivesIff(field, f.names[i], raw);
    GivesIff(field, f.names[j], other);
  }

  lemma NewStep(f: Format, fields: seq<string>, k: nat, i: nat, raw: string, j: nat)
    requires IsFormat(f) && k < |fields| && i < FIELD_COUNT && j < FIELD_COUNT && Gives(fields[k], f.names[i], raw)
    ensures IsNew(fields, k + 1, f.names[j]) <==> IsNew(fields, k, f.names[j]) && j != i
  {
    if j != i {
      forall other ensures !Gives(fields[k], f.names[j], other) {
        if Gives(fields[k], f.names[j], other) { GivenByOne(f, fields[k], i, raw, j, other); }
      }
    }
  }

  /** A field that gives no value under a name of the format is refused. */
  lemma UnknownField(t: TextRules, f: Format, fields: seq<string>, k: nat)
    requires IsFormat(f) && k < |fields|
    requires FieldNamed(f.names, Before(fields[k], '=')).None? || |Before(fields[k], '=')| == |fields[k]|
    ensures !IsGood(t, f, fields, k) && !DoesNotConvert(t, f, fields, k)
  {
    forall i: nat, raw | i < FIELD_COUNT ensures !Gives(fields[k], f.names[i], raw) {
      GivesIff(fields[k], f.names[i], raw);
    }
  }

  /** A field that gives `raw` under the i-th name is judged by these. */
  lemma KnownField(t: TextRules, f: Format, fields: seq<string>, k: nat, i: nat, raw: string)
    requires IsFormat(f) && k < |fields| && i < FIELD_COUNT && Gives(fields[k], f.names[i], raw)
    ensures IsGood(t, f, fields, k) <==> IsNew(fields, k, f.names[i]) && IsValue(t, i, raw)
    ensures DoesNotConvert(t, f, fields, k)
        <==> i != COMPLETE_FIELD && IsNew(fields, k, f.names[i]) && IsAccepted(t, raw) && t.numeral(raw) == None
  {
    forall j: nat, other | j < FIELD_COUNT && Gives(fields[k], f.names[j], other) ensures j == i && other == raw {
      GivenByOne(f, fields[k], i, raw, j, other);
    }
  }

  lemma FieldOutcome(t: TextRules, f: Format, fields: seq<string>, k: nat, values: map<nat, nat>)
    requires IsFormat(f) && k < |fields| && HasGiven(f, fields, k, values)
    ensures var r := ParseField(t, f, fields[k], values);
            && (r.Read? <==> IsGood(t, f, fields, k)) && (r.Raised? <==> DoesNotConvert(t, f, fields, k))
            && (r.Read? ==> HasGiven(f, fields, k + 1, r.value))
  {
    var key, raw := Before(fields[k], '='), After(fields[k], '=');
    var found := FieldNamed(f.names, key);
    if found.None? || |key| == |fields[k]| {
      UnknownField(t, f, fields, k);
    } else {
      var i := found.value;
      GivesIff(fields[k], f.names[i], raw);
      KnownField(t, f, fields, k, i, raw);
      forall j: nat | j < FIELD_COUNT ensures IsNew(fields, k + 1, f.names[j]) <==> IsNew(fields, k, f.names[j]) && j != i {
        NewStep(f, fields, k, i, raw, j);
      }
    }
  }

  lemma {:induction false} RaisesIff(t: TextRules, f: Format, fields: seq<string>, k: nat, values: map<nat, nat>)
    requires IsFormat(f) && k <= |fields| && HasGiven(f, fields, k, values)
    ensures ParseFields(t, f, fields[k..], values).Raised? <==> BreaksFrom(t, f, fields, k)
    decreases |fields| - k
  {
    if k < |fields| {
      FieldOutcome(t, f, fields, k, values);
      assert fields[k..][0] == fields[k] && fields[k..][1..] == fields[k + 1..];
      var next := ParseField(t, f, fields[k], values);
      if next.Read? { RaisesIff(t, f, fields, k + 1, next.value); }
      BreaksStep(t, f, fields, k);
    }
  }

  lemma BreaksStep(t: TextRules, f: Format, fields: seq<string>, k: nat)
    requires |f.names| == FIELD_COUNT && k < |fields|
    ensures BreaksFrom(t, f, fields, k) <==> DoesNotConvert(t, f, fields, k) || (IsGood(t, f, fields, k) && BreaksFrom(t, f, fields, k + 1))
  {
    if IsGood(t, f, fields, k) && BreaksFrom(t, f, fields, k + 1) {
      var j :| k + 1 <= j < |fields| && DoesNotConvert(t, f, fields, j) && forall m :: k + 1 <= m < j ==> IsGood(t, f, fields, m);
      assert forall m :: k <= m < j ==> IsGood(t, f, fields, m);
    }
  }

  /** Reading an output raises exactly when its summary line breaks off at digits that do not convert. */
  lemma ParsingRaisesIff(t: TextRules, f: Format, lines: seq<string>)
    requires IsFormat(f)
    ensures Parsed(t, f, lines).Raised? <==> BreaksOff(t, f, lines)
  {
    var fields := FieldsIn(t.isSpace, f, lines);
    if fields.Some? {
      assert HasGiven(f, fields.value, 0, map[]);
      RaisesIff(t, f, fields.value, 0, map[]);
      assert fields.value[0..] == fields.value;
    }
  }

  // ---- what is read ----

  /** The number that a value stands for. */
  ghost predicate StandsFor(t: TextRules, i: nat, raw: string, n: nat) {
    if i == COMPLETE_FIELD then (raw == "0" && n == 0) || (raw == "1" && n == 1)
    else IsAccepted(t, raw) && t.numeral(raw) == Some(n)
  }

  /** Some field gives the number under the name. */
  ghost predicate GivesNumber(t: TextRules, f: Format, fields: seq<string>, i: nat, n: nat)
    requires |f.names| == FIELD_COUNT && i < FIELD_COUNT
  {
    exists k, raw :: 0 <= k < |fields| && Gives(fields[k], f.names[i], raw) && StandsFor(t, i, raw, n)
  }

  /** The values are those that the first `k` fields give. */
  ghost predicate HoldsGiven(t: TextRules, f: Format, fields: seq<string>, k: nat, values: map<nat, nat>)
    requires |f.names| == FIELD_COUNT && k <= |fields|
  {
    && HasGiven(f, fields, k, values) && (forall i :: i in values ==> i < FIELD_COUNT)
    && forall i: nat :: i < FIELD_COUNT && i in values ==> GivesNumber(t, f, fields[..k], i, values[i])
  }

  lemma HoldsOneMore(t: TextRules, f: Format, fields: seq<string>, k: nat, values: map<nat, nat>)
    requires IsFormat(f) && k < |fields| && HoldsGiven(t, f, fields, k, values) && ParseField(t, f, fields[k], values).Read?
    ensures HoldsGiven(t, f, fields, k + 1, ParseField(t, f, fields[k], values).value)
  {
    FieldOutcome(t, f, fields, k, values);
    var next := ParseField(t, f, fields[k], values).value;
    var i, raw := FieldNamed(f.names, Before(fields[k], '=')).value, After(fields[k], '=');
    GivesIff(fields[k], f.names[i], raw);
    assert fields[..k + 1][k] == fields[k] && Gives(fields[..k + 1][k], f.names[i], raw);
    assert StandsFor(t, i, raw, next[i]);
    assert GivesNumber(t, f, fields[..k + 1], i, next[i]);
    forall j: nat | j < FIELD_COUNT && j in values ensures GivesNumber(t, f, fields[..k + 1], j, values[j]) {
      var m, raw :| 0 <= m < k && Gives(fields[..k][m], f.names[j], raw) && StandsFor(t, j, raw, values[j]);
      assert fields[..k + 1][m] == fields[..k][m];
    }
  }

  /** Every field is good, and gives what is read. */
  lemma {:induction false} ReadGives(t: TextRules, f: Format, fields: seq<string>, k: nat, values: map<nat, nat>)
    requires IsFormat(f) && k <= |fields| && HoldsGiven(t, f, fields, k, values)
    ensures var r := ParseFields(t, f, fields[k..], values);
            && (r.Read? <==> forall j :: k <= j < |fields| ==> IsGood(t, f, fields, j))
            && (r.Read? ==> HoldsGiven(t, f, fields, |fields|, r.value))
    decreases |fields| - k
  {
    if k < |fields| {
      ParseOneMore(t, f, fields, k, values);
      FieldOutcome(t, f, fields, k, values);
      var next := ParseField(t, f, fields[k], values);
      if next.Read? {
        HoldsOneMore(t, f, fields, k, values);
        ReadGives(t, f, fields, k + 1, next.value);
      }
    }
  }

  lemma ParseOneMore(t: TextRules, f: Format, fields: seq<string>, k: nat, values: map<nat, nat>)
    requires |f.names| == FIELD_COUNT && k < |fields|
    ensures var next := ParseField(t, f, fields[k], values);
            ParseFields(t, f, fields[k..], values) == if next.Read? then ParseFields(t, f, fields[k + 1..], next.value) else next
  {
    assert fields[k..][0] == fields[k] && fields[k..][1..] == fields[k + 1..];
  }

  /** What it takes for counts to be read: every field good, each name given once with its number, and outcomes that add up. */
  ghost predicate IsReading(t: TextRules, f: Format, fields: seq<string>, s: Summary)
    requires |f.names| == FIELD_COUNT
  {
    && (forall j :: 0 <= j < |fields| ==> IsGood(t, f, fields, j))
    && GivesNumber(t, f, fields, 0, s.attempted) && GivesNumber(t, f, fields, 1, s.passed) && GivesNumber(t, f, fields, 2, s.failed)
    && GivesNumber(t, f, fields, 3, s.skipped) && GivesNumber(t, f, fields, 4, s.rerun) && GivesNumber(t, f, fields, 5, s.quarantined)
    && GivesNumber(t, f, fields, 6, if s.complete then 1 else 0)
    && s.attempted == s.passed + s.failed + s.skipped
  }

  lemma OneNumber(t: TextRules, f: Format, fields: seq<string>, i: nat, n: nat, m: nat)
    requires IsFormat(f) && i < FIELD_COUNT && (forall j :: 0 <= j < |fields| ==> IsGood(t, f, fields, j))
    requires GivesNumber(t, f, fields, i, n) && GivesNumber(t, f, fields, i, m)
    ensures n == m
  {
    var j, a :| 0 <= j < |fields| && Gives(fields[j], f.names[i], a) && StandsFor(t, i, a, n);
    var k, b :| 0 <= k < |fields| && Gives(fields[k], f.names[i], b) && StandsFor(t, i, b, m);
    KnownField(t, f, fields, j, i, a);
    KnownField(t, f, fields, k, i, b);
    if j == k { GivenByOne(f, fields[j], i, a, i, b); }
  }

  lemma GivenIsHeld(t: TextRules, f: Format, fields: seq<string>, values: map<nat, nat>, i: nat, n: nat)
    requires IsFormat(f) && i < FIELD_COUNT && HoldsGiven(t, f, fields, |fields|, values)
    requires (forall j :: 0 <= j < |fields| ==> IsGood(t, f, fields, j)) && GivesNumber(t, f, fields, i, n)
    ensures i in values && values[i] == n
  {
    assert fields[..|fields|] == fields;
    OneNumber(t, f, fields, i, n, if i in values then values[i] else n);
  }

  /** Counts are read from an output exactly when its summary line gives them. */
  lemma ReadIff(t: TextRules, f: Format, lines: seq<string>, s: Summary)
    requires IsFormat(f)
    ensures Parsed(t, f, lines) == Read(s) <==> exists fields :: FieldsIn(t.isSpace, f, lines) == Some(fields) && IsReading(t, f, fields, s)
  {
    if FieldsIn(t.isSpace, f, lines).Some? {
      var fields := FieldsIn(t.isSpace, f, lines).value;
      assert fields[..0] == [] && fields[0..] == fields && fields[..|fields|] == fields;
      ReadGives(t, f, fields, 0, map[]);
      var r := ParseFields(t, f, fields, map[]);
      if r.Read? { ValuesMean(t, f, fields, r.value, s); }
    }
  }

  lemma ValuesMean(t: TextRules, f: Format, fields: seq<string>, values: map<nat, nat>, s: Summary)
    requires IsFormat(f) && HoldsGiven(t, f, fields, |fields|, values) && forall j :: 0 <= j < |fields| ==> IsGood(t, f, fields, j)
    ensures SummaryFrom(values) == Read(s) <==> IsReading(t, f, fields, s)
  {
    assert fields[..|fields|] == fields;
    if IsReading(t, f, fields, s) {
      GivenIsHeld(t, f, fields, values, 0, s.attempted);
      GivenIsHeld(t, f, fields, values, 1, s.passed);
      GivenIsHeld(t, f, fields, values, 2, s.failed);
      GivenIsHeld(t, f, fields, values, 3, s.skipped);
      GivenIsHeld(t, f, fields, values, 4, s.rerun);
      GivenIsHeld(t, f, fields, values, 5, s.quarantined);
      GivenIsHeld(t, f, fields, values, 6, if s.complete then 1 else 0);
    }
    if SummaryFrom(values) == Read(s) {
      forall i: nat | i < FIELD_COUNT ensures GivesNumber(t, f, fields, i, values[i]) {}
      LastIsFlag(t, f, fields, values[6]);
    }
  }

  lemma LastIsFlag(t: TextRules, f: Format, fields: seq<string>, n: nat)
    requires |f.names| == FIELD_COUNT && GivesNumber(t, f, fields, COMPLETE_FIELD, n)
    ensures n == 0 || n == 1
  {
  }

  /** The k-th line looks like a summary. */
  ghost predicate LooksLike(isSpace: char -> bool, f: Format, lines: seq<string>, k: int) {
    0 <= k < |lines| && f.marker <= Stripped(isSpace, lines[k])
  }

  /** There is one such line, and its first word is the marker. */
  lemma FieldsInIff(isSpace: char -> bool, f: Format, lines: seq<string>, fields: seq<string>)
    ensures FieldsIn(isSpace, f, lines) == Some(fields)
       <==> exists k :: && LooksLike(isSpace, f, lines, k) && (forall j :: LooksLike(isSpace, f, lines, j) ==> j == k)
                        && WordsFrom(isSpace, Stripped(isSpace, lines[k]), 0) == [f.marker] + fields
  {
    PolicyLinesAre(isSpace, f, lines);
    var found := PolicyLines(isSpace, f, lines);
    if |found| == 1 {
      var k := OneLooks(isSpace, f, lines);
      var words := WordsFrom(isSpace, found[0], 0);
      if words != [] { assert words == [words[0]] + words[1..]; }
    }
    if k :| && LooksLike(isSpace, f, lines, k) && (forall j :: LooksLike(isSpace, f, lines, j) ==> j == k)
            && WordsFrom(isSpace, Stripped(isSpace, lines[k]), 0) == [f.marker] + fields {
      LooksAlone(isSpace, f, lines, k);
      assert ([f.marker] + fields)[1..] == fields;
    }
  }

  lemma {:induction false} PolicyLinesAre(isSpace: char -> bool, f: Format, lines: seq<string>)
    ensures PolicyLines(isSpace, f, lines) == [] <==> forall j :: !LooksLike(isSpace, f, lines, j)
  {
    if lines != [] {
      PolicyLinesAre(isSpace, f, lines[1..]);
      forall j ensures LooksLike(isSpace, f, lines, j + 1) && j >= 0 <==> LooksLike(isSpace, f, lines[1..], j) {
        if 0 <= j < |lines| - 1 { assert lines[1..][j] == lines[j + 1]; }
      }
      if j :| LooksLike(isSpace, f, lines, j) && j > 0 { assert LooksLike(isSpace, f, lines[1..], j - 1); }
      if j :| LooksLike(isSpace, f, lines[1..], j) { assert LooksLike(isSpace, f, lines, j + 1); }
      if f.marker <= Stripped(isSpace, lines[0]) { assert LooksLike(isSpace, f, lines, 0); }
    }
  }

  lemma {:induction false} OneLooks(isSpace: char -> bool, f: Format, lines: seq<string>) returns (k: int)
    requires |PolicyLines(isSpace, f, lines)| == 1
    ensures LooksLike(isSpace, f, lines, k) && forall j :: LooksLike(isSpace, f, lines, j) ==> j == k
    ensures PolicyLines(isSpace, f, lines) == [Stripped(isSpace, lines[k])]
  {
    if f.marker <= Stripped(isSpace, lines[0]) {
      k := 0;
      assert PolicyLines(isSpace, f, lines) == [Stripped(isSpace, lines[0])] + PolicyLines(isSpace, f, lines[1..]);
      PolicyLinesAre(isSpace, f, lines[1..]);
      forall j | LooksLike(isSpace, f, lines, j) && j > 0 ensures LooksLike(isSpace, f, lines[1..], j - 1) {}
    } else {
      assert PolicyLines(isSpace, f, lines) == PolicyLines(isSpace, f, lines[1..]);
      var i := OneLooks(isSpace, f, lines[1..]);
      k := i + 1;
      forall j | LooksLike(isSpace, f, lines, j) ensures j == k { assert LooksLike(isSpace, f, lines[1..], j - 1); }
    }
  }

  lemma {:induction false} LooksAlone(isSpace: char -> bool, f: Format, lines: seq<string>, k: int)
    requires LooksLike(isSpace, f, lines, k) && forall j :: LooksLike(isSpace, f, lines, j) ==> j == k
    ensures PolicyLines(isSpace, f, lines) == [Stripped(isSpace, lines[k])]
  {
    forall j | LooksLike(isSpace, f, lines[1..], j) ensures LooksLike(isSpace, f, lines, j + 1) {}
    if k == 0 {
      PolicyLinesAre(isSpace, f, lines[1..]);
    } else {
      assert !LooksLike(isSpace, f, lines, 0);
      assert LooksLike(isSpace, f, lines[1..], k - 1);
      LooksAlone(isSpace, f, lines[1..], k - 1);
    }
  }

  // ---- the report ----

  datatype Reason = PartialRun | RerunNotAllowed | QuarantinedTestFailed | CommandFailed | Complete | InvalidOutput

  datatype PolicyReport = PolicyReport(complete: bool, counts: Summary, exitCode: nat, reason: Reason, success: bool)

  const NO_COUNTS := Summary(0, 0, 0, 0, 0, 0, false)

  /** The verdict on a command's exit code and the lines it wrote. */
  method BuildReport(t: TextRules, f: Format, lines: seq<string>, exitCode: int) returns (r: Option<PolicyReport>)
    requires |f.names| == FIELD_COUNT
    ensures r == ReportOf(Parsed(t, f, lines), exitCode)
    ensures r.Some? ==> IsReport(Parsed(t, f, lines), exitCode, r.value)
  {
    if exitCode < 0 {
      return None;
    }
    var parsed := ParsePolicyOutput(t, f, lines);
    if parsed.Raised? {
      return None;
    }
    r := JudgeCounts(parsed, exitCode);
    if r.Some? { ReportMeans(parsed, exitCode); }
  }

  method JudgeCounts(parsed: Reading<Summary>, exitCode: nat) returns (r: Option<PolicyReport>)
    requires !parsed.Raised?
    ensures r == ReportOf(parsed, exitCode)
  {
    var reason, counts, complete := InvalidOutput, NO_COUNTS, false;
    if parsed.Read? {
      counts, complete := parsed.value, parsed.value.complete;
      if !complete {
        reason := PartialRun;
      } else if counts.rerun != 0 {
        reason := RerunNotAllowed;
      } else if exitCode != 0 {
        reason := if counts.failed != 0 then QuarantinedTestFailed else CommandFailed;
      } else {
        reason := Complete;
      }
    }
    var success := complete && exitCode == 0 && counts.failed == 0 && counts.rerun == 0;
    var report := PolicyReport(complete, counts, exitCode, reason, success);
    return if IsValid(report) then Some(report) else None;
  }

  /** The reason a complete reading of the counts gives. */
  function ReasonOf(counts: Summary, exitCode: nat): Reason {
    if !counts.complete then PartialRun
    else if counts.rerun > 0 then RerunNotAllowed
    else if exitCode == 0 then Complete
    else if counts.failed > 0 then QuarantinedTestFailed
    else CommandFailed
  }

  /** The report on a reading; none for a negative exit code, and none when reading raises. */
  function ReportOf(parsed: Reading<Summary>, exitCode: int): Option<PolicyReport> {
    if exitCode < 0 || parsed.Raised? then None
    else
      var report := if parsed.Refused? then PolicyReport(false, NO_COUNTS, exitCode, InvalidOutput, false)
        else
          var s := parsed.value;
          PolicyReport(s.complete, s, exitCode, ReasonOf(s, exitCode), s.complete && exitCode == 0 && s.failed == 0 && s.rerun == 0);
      if IsValid(report) then Some(report) else None
  }

  /** The validator's cross-field checks. */
  predicate IsValid(r: PolicyReport) {
    && r.counts.attempted == r.counts.passed + r.counts.failed + r.counts.skipped
    && (r.success <==> r.complete && r.exitCode == 0 && r.counts.failed == 0 && r.counts.rerun == 0)
  }

  lemma ParsedAddsUp(t: TextRules, f: Format, lines: seq<string>)
    requires |f.names| == FIELD_COUNT && Parsed(t, f, lines).Read?
    ensures var s := Parsed(t, f, lines).value; s.attempted == s.passed + s.failed + s.skipped
  {
  }

  /**
   A report is built, and passes its validator, exactly when the exit code is not negative and the
   summary line does not break off at digits that do not convert.
   */
  lemma ReportIsBuiltIff(t: TextRules, f: Format, lines: seq<string>, exitCode: int)
    requires IsFormat(f)
    ensures ReportOf(Parsed(t, f, lines), exitCode).Some? <==> exitCode >= 0 && !BreaksOff(t, f, lines)
  {
    ParsingRaisesIff(t, f, lines);
    if Parsed(t, f, lines).Read? { ParsedAddsUp(t, f, lines); }
  }

  /** A superscript is a digit that does not convert: after a clean exit there is no report on it. */
  lemma SuperscriptRaises(t: TextRules)
    requires IsTextRules(t) && t.isDigit('\U{00B2}') && !t.isSpace('\U{00B2}') && t.numeral(['\U{00B2}']) == None
    ensures var lines := [Join([POLICY_FORMAT.marker, POLICY_FORMAT.names[0] + "=" + ['\U{00B2}']], ' ')];
            Parsed(t, POLICY_FORMAT, lines) == Raised && ReportOf(Parsed(t, POLICY_FORMAT, lines), 0) == None
  {
    PolicyFormatIsFormat();
    DigitsRaise(t, POLICY_FORMAT, ['\U{00B2}']);
  }

  /** A line with one count, accepted and not convertible. */
  lemma DigitsRaise(t: TextRules, f: Format, raw: string)
    requires IsTextRules(t) && IsFormat(f) && IsAccepted(t, raw) && IsWord(t.isSpace, raw) && t.numeral(raw) == None
    ensures Parsed(t, f, [Join([f.marker, f.names[0] + "=" + raw], ' ')]) == Raised
  {
    var field := f.names[0] + "=" + raw;
    assert !t.isSpace('=');
    assert IsWord(t.isSpace, field);
    FieldsAreFound(t, f, [], [field], []);
    var lines := [Join([f.marker, field], ' ')];
    assert [f.marker] + [field] == [f.marker, field];
    assert [] + lines + [] == lines;
    assert Gives(field, f.names[0], raw) && IsNew([field], 0, f.names[0]);
    assert DoesNotConvert(t, f, [field], 0);
    ParsingRaisesIff(t, f, lines);
  }

  /** What a report says of the counts and the exit code it was made from. */
  ghost predicate IsReport(parsed: Reading<Summary>, exitCode: int, r: PolicyReport) {
    && r.exitCode == exitCode
    && (parsed == Refused || parsed == Read(r.counts))
    && (r.complete <==> parsed.Read? && r.counts.complete)
    && (r.success <==> r.complete && exitCode == 0 && r.counts.failed == 0 && r.counts.rerun == 0)
    && match r.reason
       case InvalidOutput => parsed == Refused && r.counts == Summary(0, 0, 0, 0, 0, 0, false)
       case PartialRun => parsed.Read? && !r.counts.complete
       case RerunNotAllowed => r.complete && r.counts.rerun > 0
       case Complete => r.complete && r.counts.rerun == 0 && exitCode == 0
       case QuarantinedTestFailed => r.complete && r.counts.rerun == 0 && exitCode > 0 && r.counts.failed > 0
       case CommandFailed => r.complete && r.counts.rerun == 0 && exitCode > 0 && r.counts.failed == 0
  }

  /** Every report says of its output and exit code what it should. */
  lemma ReportMeans(parsed: Reading<Summary>, exitCode: int)
    requires ReportOf(parsed, exitCode).Some?
    ensures IsReport(parsed, exitCode, ReportOf(parsed, exitCode).value)
  {
  }

  /** A report with a verdict that its counts do not bear out, or with counts that do not add up, is refused. */
  lemma InvalidIff(r: PolicyReport)
    ensures !IsValid(r)
       <==> || r.counts.attempted != r.counts.passed + r.counts.failed + r.counts.skipped
            || (r.success && (!r.complete || r.exitCode > 0 || r.counts.failed > 0 || r.counts.rerun > 0))
            || (!r.success && r.complete && r.exitCode == 0 && r.counts.failed == 0 && r.counts.rerun == 0)
  {
  }

  /** The counts speak of a complete run without reruns in which a test failed. */
  predicate HidesFailure(parsed: Reading<Summary>) {
    parsed.Read? && parsed.value.complete && parsed.value.rerun == 0 && parsed.value.failed > 0
  }

  /** In every report reason and verdict agree unless the exit code is clean and the counts report a failed test. */
  lemma ReasonAgreesIff(t: TextRules, f: Format, lines: seq<string>, exitCode: nat)
    requires |f.names| == FIELD_COUNT
    ensures var r := ReportOf(Parsed(t, f, lines), exitCode);
            r.Some? ==> ((r.value.reason == Complete <==> r.value.success) <==> !(exitCode == 0 && HidesFailure(Parsed(t, f, lines))))
  {
    if Parsed(t, f, lines).Read? { ParsedAddsUp(t, f, lines); }
  }

  /** Such an output: one test, attempted and failed, and a clean exit. */
  lemma CleanExitHidesFailure(t: TextRules)
    requires IsTextRules(t)
    ensures var lines := [Printed(POLICY_FORMAT, Summary(1, 0, 1, 0, 0, 0, true))];
            var r := ReportOf(Parsed(t, POLICY_FORMAT, lines), 0);
            r.Some? && r.value.reason == Complete && !r.value.success
  {
    PolicyFormatIsFormat();
    OneFailure(t, POLICY_FORMAT);
  }

  lemma OneFailure(t: TextRules, f: Format)
    requires IsTextRules(t) && IsFormat(f)
    ensures var s := Summary(1, 0, 1, 0, 0, 0, true); Parsed(t, f, [Printed(f, s)]) == Read(s)
  {
    var s := Summary(1, 0, 1, 0, 0, 0, true);
    assert |Decimal(0)| == 1 && |Decimal(1)| == 1;
    AloneIsOutput(t, f, s);
    ParsedOutput(t, f, s, [Printed(f, s)]);
  }

  lemma AloneIsOutput(t: TextRules, f: Format, s: Summary)
    requires |f.names| == FIELD_COUNT && IsPrintable(s)
    ensures IsOutput(t.isSpace, f, s, [Printed(f, s)])
  {
    assert [Printed(f, s)] == [] + [Printed(f, s)] + [];
    assert PolicyLines(t.isSpace, f, []) == [];
  }

  /** A session: what its plugin saw, the exit status it ended with, and what its command printed and returned. */
  datatype Session = Session(events: seq<Event>, items: seq<Item>, exitStatus: int, lines: seq<string>, exitCode: int)

  ghost predicate IsSessionOutput(t: TextRules, f: Format, x: Session) {
    && IsFormat(f) && IsTextRules(t) && IsSession(x.events, x.items)
    && IsOutput(t.isSpace, f, SummaryOf(Run(x.events), x.exitStatus), x.lines)
  }

  /**
   The report is a success exactly when every selected test has an outcome, none failed,
   nothing was rerun, and both exit codes are clean.
   */
  lemma SuccessIff(t: TextRules, f: Format, x: Session)
    requires IsSessionOutput(t, f, x)
    ensures var r := ReportOf(Parsed(t, f, x.lines), x.exitCode);
            var s := Run(x.events);
            r.Some? && r.value.success
            <==> && x.exitCode == 0 && (x.exitStatus == 0 || x.exitStatus == 5) && s.rerun == 0
                 && forall item :: item in x.items ==> item.id in s.outcomes && s.outcomes[item.id] != Failed
  {
    var summary := SummaryOf(Run(x.events), x.exitStatus);
    ParsedOutput(t, f, summary, x.lines);
    ReportOnSummary(summary, x.exitCode);
    SummaryAddsUpIff(x.events, x.exitStatus);
    SessionAddsUpIff(x.events, x.items, x.exitStatus);
    NothingFailed(x.events, x.items);
  }

  lemma ReportOnSummary(s: Summary, exitCode: int)
    ensures var reading := if s.attempted == s.passed + s.failed + s.skipped then Read(s) else Refused;
            var r := ReportOf(reading, exitCode);
            r.Some? && r.value.success
            <==> s.attempted == s.passed + s.failed + s.skipped && s.complete && exitCode == 0 && s.failed == 0 && s.rerun == 0
  {
  }

  lemma NothingFailed(events: seq<Event>, items: seq<Item>)
    requires IsSession(events, items)
    ensures var s := Run(events);
            |With(s.outcomes, Failed)| == 0 <==> forall item :: item in items && item.id in s.outcomes ==> s.outcomes[item.id] != Failed
  {
    var s := Run(events);
    var failed := With(s.outcomes, Failed);
    assert |failed| == 0 <==> failed == {};
    forall id | id in failed ensures exists item :: item in items && item.id == id {
      OutcomeIsLastNoted(events, id, Failed);
      assert id in Ids(items);
    }
    forall item | item in items && item.id in s.outcomes && s.outcomes[item.id] == Failed ensures item.id in failed {}
  }
}
