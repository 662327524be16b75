/**
 The NUL-separated name-status stream of a diff: a parser and the printer it inverts.
 Texts are bytes.
 */
module NameStatus {
  import opened Text
  import opened Wrappers

  const NUL := '\0'

  datatype ChangeRecord = ChangeRecord(status: string, paths: seq<string>, ordinary: bool)

  datatype DiffError = NotParsable | UnsupportedStatus(status: string)

  function Digit(c: char): int {
    c as int - '0' as int
  }

  predicate IsScore(score: string) {
    |score| == 3 && IsDigit(score[0]) && IsDigit(score[1]) && IsDigit(score[2])
    && 100 * Digit(score[0]) + 10 * Digit(score[1]) + Digit(score[2]) <= 100
  }

  predicate IsMove(status: string) {
    status != [] && (status[0] == 'R' || status[0] == 'C')
  }

  predicate IsSupported(status: string) {
    if IsMove(status) then IsScore(status[1..]) else |status| == 1 && (status[0] == 'A' || status[0] == 'M' || status[0] == 'D')
  }

  /** Two paths for a rename or copy, one otherwise. */
  function PathCount(status: string): nat {
    if IsMove(status) then 2 else 1
  }

  predicate IsAscii(s: string) {
    forall i :: 0 <= i < |s| ==> s[i] as int < 128
  }

  /** The checks on a status, in order. */
  function StatusError(status: string): Option<DiffError> {
    if !IsAscii(status) then Some(NotParsable)
    else if !IsSupported(status) then Some(UnsupportedStatus(status))
    else None
  }

  function ParseFields(fields: seq<string>): Result<seq<ChangeRecord>, DiffError>
    decreases |fields|
  {
    if fields == [] then Ok([])
    else
      var status, count := fields[0], PathCount(fields[0]);
      if StatusError(status).Some? then Err(StatusError(status).value)
      else if 1 + count > |fields| then Err(NotParsable)
      else if [] in fields[1..1 + count] then Err(NotParsable)
      else Prepend([ChangeRecord(status, fields[1..1 + count], true)], ParseFields(fields[1 + count..]))
  }

  function Prepend(records: seq<ChangeRecord>, rest: Result<seq<ChangeRecord>, DiffError>)
    : Result<seq<ChangeRecord>, DiffError>
  {
    if rest.Err? then rest else Ok(records + rest.value)
  }

  function Parsed(data: string): Result<seq<ChangeRecord>, DiffError> {
    if data == [] || data[|data| - 1] != NUL then Err(NotParsable) else ParseFields(Split(data[..|data| - 1], NUL))
  }

  method ParseNameStatus(data: string) returns (r: Result<seq<ChangeRecord>, DiffError>)
    ensures r == Parsed(data)
  {
    if data == [] || data[|data| - 1] != NUL {
      return Err(NotParsable);
    }
    var fields := Split(data[..|data| - 1], NUL);
    var records: seq<ChangeRecord> := [];
    var index := 0;
    PrependNothing(ParseFields(fields));
    assert fields[0..] == fields;
    while index < |fields|
      invariant 0 <= index <= |fields|
      invariant Prepend(records, ParseFields(fields[index..])) == ParseFields(fields)
    {
      var status := fields[index];
      ParseStep(fields, index);
      index := index + 1;
      if !IsAscii(status) {
        return Err(NotParsable);
      }
      var pathCount := 1;
      if IsMove(status) {
        if !IsScore(status[1..]) {
          return Err(UnsupportedStatus(status));
        }
        pathCount := 2;
      } else if !(|status| == 1 && (status[0] == 'A' || status[0] == 'M' || status[0] == 'D')) {
        return Err(UnsupportedStatus(status));
      }
      if index + pathCount > |fields| {
        return Err(NotParsable);
      }
      var paths := fields[index..index + pathCount];
      index := index + pathCount;
      if [] in paths {
        return Err(NotParsable);
      }
      PrependPrepend(records, ChangeRecord(status, paths, true), ParseFields(fields[index..]));
      records := records + [ChangeRecord(status, paths, true)];
    }
    assert fields[index..] == [] && records + [] == records;
    return Ok(records);
  }

  /** One record read off the fields from `i` on. */
  lemma ParseStep(fields: seq<string>, i: nat)
    requires i < |fields|
    ensures var status, next := fields[i], i + 1 + PathCount(fields[i]);
            ParseFields(fields[i..])
            == (if StatusError(status).Some? then Err(StatusError(status).value)
                else if next > |fields| || [] in fields[i + 1..next] then Err(NotParsable)
                else Prepend([ChangeRecord(status, fields[i + 1..next], true)], ParseFields(fields[next..])))
  {
    var rest, count := fields[i..], PathCount(fields[i]);
    assert rest[0] == fields[i] && |rest| == |fields| - i;
    if i + 1 + count <= |fields| { SlicesOfRest(fields, i, count); }
  }

  lemma SlicesOfRest(fields: seq<string>, i: nat, count: nat)
    requires i + 1 + count <= |fields|
    ensures fields[i..][1..1 + count] == fields[i + 1..i + 1 + count]
    ensures fields[i..][1 + count..] == fields[i + 1 + count..]
  {
  }

  lemma PrependNothing(rest: Result<seq<ChangeRecord>, DiffError>)
    ensures Prepend([], rest) == rest
  {
    if rest.Ok? { assert [] + rest.value == rest.value; }
  }

  lemma PrependPrepend(records: seq<ChangeRecord>, c: ChangeRecord, rest: Result<seq<ChangeRecord>, DiffError>)
    ensures Prepend(records + [c], rest) == Prepend(records, Prepend([c], rest))
  {
    if rest.Ok? { assert records + [c] + rest.value == records + ([c] + rest.value); }
  }

  // ---- the printer ----

  function FieldsOf(records: seq<ChangeRecord>): seq<string> {
    if records == [] then [] else [records[0].status] + records[0].paths + FieldsOf(records[1..])
  }

  /** Every field followed by a NUL, as the diff command prints it. */
  function Printed(records: seq<ChangeRecord>): string {
    Join(FieldsOf(records), NUL) + [NUL]
  }

  /** Three digits of a number up to a hundred. */
  ghost predicate IsPercentage(score: string) {
    score == "100" || (|score| == 3 && score[0] == '0' && '0' <= score[1] <= '9' && '0' <= score[2] <= '9')
  }

  /** A status that this many paths follow: an added, modified or deleted file, or a rename or copy with its score. */
  ghost predicate IsStatus(status: string, count: nat) {
    || (count == 1 && (status == "A" || status == "M" || status == "D"))
    || (count == 2 && exists score :: IsPercentage(score) && (status == "R" + score || status == "C" + score))
  }

  ghost predicate IsRecord(c: ChangeRecord) {
    IsStatus(c.status, |c.paths|) && c.ordinary && forall p :: p in c.paths ==> p != [] && NUL !in p
  }

  lemma ScoreIff(score: string)
    ensures IsScore(score) <==> IsPercentage(score)
  {
    if IsScore(score) && score[0] == '1' { assert score == "100"; }
  }

  lemma StatusIff(status: string, count: nat)
    ensures IsStatus(status, count) <==> IsSupported(status) && count == PathCount(status)
  {
    if IsMove(status) {
      ScoreIff(status[1..]);
      assert status == [status[0]] + status[1..];
    }
    if score :| IsPercentage(score) && (status == "R" + score || status == "C" + score) {
      assert status[1..] == score;
      ScoreIff(score);
    }
  }

  ghost predicate AreRecords(records: seq<ChangeRecord>) {
    forall c :: c in records ==> IsRecord(c)
  }

  lemma SupportedIsPlain(status: string)
    requires IsSupported(status)
    ensures IsAscii(status) && NUL !in status
  {
    if IsMove(status) { assert status == [status[0], status[1..][0], status[1..][1], status[1..][2]]; }
  }

  lemma {:induction false} FieldsParse(records: seq<ChangeRecord>)
    requires AreRecords(records)
    ensures ParseFields(FieldsOf(records)) == Ok(records)
    ensures forall f :: f in FieldsOf(records) ==> NUL !in f
  {
    if records != [] {
      var c, rest := records[0], FieldsOf(records[1..]);
      assert c in records && forall d :: d in records[1..] ==> d in records;
      StatusIff(c.status, |c.paths|);
      FieldsParse(records[1..]);
      SupportedIsPlain(c.status);
      var fields := [c.status] + c.paths + rest;
      assert fields[1..1 + |c.paths|] == c.paths && fields[1 + |c.paths|..] == rest;
      assert [c] + records[1..] == records;
    }
  }

  lemma {:induction false} ParsedFields(fields: seq<string>)
    requires ParseFields(fields).Ok? && forall f :: f in fields ==> NUL !in f
    ensures AreRecords(ParseFields(fields).value) && FieldsOf(ParseFields(fields).value) == fields
    ensures fields != [] ==> ParseFields(fields).value != []
    decreases |fields|
  {
    if fields != [] {
      var count := PathCount(fields[0]);
      var paths, rest := fields[1..1 + count], fields[1 + count..];
      StatusIff(fields[0], count);
      ParsedFields(rest);
      assert fields == [fields[0]] + paths + rest;
      assert forall p :: p in paths ==> p in fields;
      var records := ParseFields(rest).value;
      assert ([ChangeRecord(fields[0], paths, true)] + records)[1..] == records;
    }
  }

  /** Parsing what was printed gives the records back. */
  lemma ParseOfPrinted(records: seq<ChangeRecord>)
    requires records != [] && AreRecords(records)
    ensures Parsed(Printed(records)) == Ok(records)
  {
    FieldsParse(records);
    SplitJoin(FieldsOf(records), NUL);
    var data := Printed(records);
    assert data[..|data| - 1] == Join(FieldsOf(records), NUL);
  }

  /** Whatever is accepted is what the printer prints for the records found. */
  lemma PrintedOfParse(data: string)
    requires Parsed(data).Ok?
    ensures var records := Parsed(data).value; records != [] && AreRecords(records) && Printed(records) == data
  {
    var front := data[..|data| - 1];
    SplitPieces(front, NUL);
    ParsedFields(Split(front, NUL));
    assert data == front + [NUL];
  }

  /** The parser accepts exactly the printer's outputs, and different record lists print differently. */
  lemma AcceptsExactlyPrinted(data: string, records: seq<ChangeRecord>)
    ensures Parsed(data) == Ok(records) <==> records != [] && AreRecords(records) && data == Printed(records)
  {
    if Parsed(data) == Ok(records) { PrintedOfParse(data); }
    if records != [] && AreRecords(records) { ParseOfPrinted(records); }
  }

  // ---- errors ----

  /** What is wrong with a record: its status is not ASCII or not supported, or a path is missing or empty. */
  ghost predicate IsFault(fields: seq<string>, error: DiffError)
    requires fields != []
  {
    if exists i :: 0 <= i < |fields[0]| && fields[0][i] as int >= 128 then error == NotParsable
    else if forall count: nat :: !IsStatus(fields[0], count) then error == UnsupportedStatus(fields[0])
    else error == NotParsable
         && forall count: nat :: IsStatus(fields[0], count) ==> |fields| < 1 + count || [] in fields[1..1 + count]
  }

  /** The error is about the first record that is not well formed. */
  ghost predicate IsFirstFault(fields: seq<string>, error: DiffError) {
    exists records, rest :: AreRecords(records) && rest != [] && fields == FieldsOf(records) + rest && IsFault(rest, error)
  }

  lemma FaultIs(fields: seq<string>)
    requires fields != [] && ParseFields(fields).Err?
    requires var count := PathCount(fields[0]);
             StatusError(fields[0]).Some? || |fields| < 1 + count || [] in fields[1..1 + count]
    ensures IsFirstFault(fields, ParseFields(fields).error)
  {
    forall count: nat ensures IsStatus(fields[0], count) <==> IsSupported(fields[0]) && count == PathCount(fields[0]) {
      StatusIff(fields[0], count);
    }
    assert IsStatus(fields[0], PathCount(fields[0])) <==> IsSupported(fields[0]);
    assert IsFault(fields, ParseFields(fields).error);
    assert AreRecords([]) && fields == FieldsOf([]) + fields;
  }

  lemma FaultBehind(c: ChangeRecord, fields: seq<string>, error: DiffError)
    requires IsRecord(c) && IsFirstFault(fields, error)
    ensures IsFirstFault([c.status] + c.paths + fields, error)
  {
    var records, rest :| AreRecords(records) && rest != [] && fields == FieldsOf(records) + rest && IsFault(rest, error);
    assert ([c] + records)[1..] == records;
    assert FieldsOf([c] + records) + rest == [c.status] + c.paths + (FieldsOf(records) + rest);
    assert AreRecords([c] + records);
  }

  lemma {:induction false} ErrorMeans(fields: seq<string>)
    requires ParseFields(fields).Err? && forall f :: f in fields ==> NUL !in f
    ensures IsFirstFault(fields, ParseFields(fields).error)
    decreases |fields|
  {
    var count := PathCount(fields[0]);
    if StatusError(fields[0]).Some? || |fields| < 1 + count || [] in fields[1..1 + count] {
      FaultIs(fields);
    } else {
      var c, rest := ChangeRecord(fields[0], fields[1..1 + count], true), fields[1 + count..];
      StatusIff(c.status, count);
      assert forall p :: p in c.paths ==> p in fields;
      assert forall f :: f in rest ==> f in fields;
      ErrorMeans(rest);
      FaultBehind(c, rest, ParseFields(rest).error);
      assert fields == [c.status] + c.paths + rest;
    }
  }

  /** A refused output is empty or has no closing NUL, or the error is about its first record that is not well formed. */
  lemma RefusalMeans(data: string)
    requires Parsed(data).Err?
    ensures || (Parsed(data).error == NotParsable && (data == [] || data[|data| - 1] != NUL))
            || exists fields :: data == Join(fields, NUL) + [NUL] && (forall f :: f in fields ==> NUL !in f)
                                && IsFirstFault(fields, Parsed(data).error)
  {
    if data != [] && data[|data| - 1] == NUL {
      var front := data[..|data| - 1];
      SplitPieces(front, NUL);
      ErrorMeans(Split(front, NUL));
      assert data == front + [NUL];
    }
  }
}
