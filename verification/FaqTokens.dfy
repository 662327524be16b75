/**
 Image tokens in FAQ answers: they are resolved in the text and left alone in code.
 */
module FaqTokens {
  import opened Wrappers
  import opened Scanning
  import opened Text

  // ---- code spans and fences ----

  predicate IsTick(c: char) {
    c == '`' || c == '~'
  }

  /** The end of the line that covers `i`. */
  function LineEnd(s: string, i: nat): (r: nat)
    requires i <= |s|
    ensures i <= r <= |s| && '\n' !in s[i..r] && (r < |s| ==> s[r] == '\n')
    decreases |s| - i
  {
    if i == |s| || s[i] == '\n' then i else LineEnd(s, i + 1)
  }

  function NextLine(s: string, i: nat): (r: nat)
    requires i < |s|
    ensures i < r <= |s|
  {
    if LineEnd(s, i) < |s| then LineEnd(s, i) + 1 else |s|
  }

  /** The start of the line that holds position `i`. */
  function LineStart(s: string, i: nat): (r: nat)
    requires i <= |s|
    ensures r <= i && (r == 0 || s[r - 1] == '\n') && '\n' !in s[r..i]
  {
    if i == 0 || s[i - 1] == '\n' then i else LineStart(s, i - 1)
  }

  function SpacesEnd(s: string, i: nat): (r: nat)
    requires i <= |s|
    ensures i <= r <= |s|
  {
    RunEnd(s, i, ' ')
  }

  function TicksEnd(s: string, i: nat): (r: nat)
    requires i <= |s|
    ensures i <= r <= |s| && (forall k :: i <= k < r ==> IsTick(s[k])) && (r < |s| ==> !IsTick(s[r]))
    decreases |s| - i
  {
    if i == |s| || !IsTick(s[i]) then i else TicksEnd(s, i + 1)
  }

  predicate IsBlank(s: string) {
    forall k :: 0 <= k < |s| ==> s[k] == ' ' || s[k] == '\t'
  }

  /** A line of up to three spaces, enough ticks that start with `c`, and blanks. */
  predicate ClosesFence(line: string, c: char, length: nat) {
    var spaces := SpacesEnd(line, 0);
    var ticks := TicksEnd(line, spaces);
    && spaces <= 3 && ticks - spaces >= 3 && IsBlank(line[ticks..])
    && line[spaces] == c && ticks - spaces >= length
  }

  predicate ClosesAt(s: string, i: nat, c: char, length: nat)
    requires i < |s|
  {
    ClosesFence(s[i..LineEnd(s, i)], c, length)
  }

  /** The end of the block whose lines start at `cursor`. */
  function FenceEnd(s: string, cursor: nat, c: char, length: nat): (r: nat)
    requires cursor <= |s|
    ensures cursor <= r <= |s|
    decreases |s| - cursor
  {
    if cursor == |s| then |s|
    else if ClosesAt(s, cursor, c, length) then NextLine(s, cursor)
    else FenceEnd(s, NextLine(s, cursor), c, length)
  }

  predicate OpensFence(s: string, i: nat)
    requires i < |s|
  {
    var start := LineStart(s, i);
    && RunEnd(s, i, s[i]) - i >= 3 && i - start <= 3 && forall k :: start <= k < i ==> s[k] == ' '
  }

  /** The end of the fenced block whose opening run ends at `runEnd`. */
  function FencedEnd(s: string, runEnd: nat, c: char, length: nat): (r: nat)
    requires runEnd <= |s|
    ensures runEnd <= r <= |s|
  {
    if LineEnd(s, runEnd) == |s| then |s| else FenceEnd(s, LineEnd(s, runEnd) + 1, c, length)
  }

  /** The end of the inline code whose opening run is `s[i..runEnd]`. */
  function InlineEnd(s: string, i: nat, runEnd: nat): (r: Option<nat>)
    requires i < runEnd <= |s|
    ensures r.Some? ==> i < r.value <= |s|
  {
    var closing := FindFrom(s, s[i..runEnd], runEnd);
    if closing.None? then None else Some(closing.value + (runEnd - i))
  }

  function CodeEnd(s: string, i: nat): (r: Option<nat>)
    requires i < |s|
    ensures r.Some? ==> i < r.value <= |s|
  {
    var runEnd := RunEnd(s, i, s[i]);
    if !IsTick(s[i]) then None
    else if OpensFence(s, i) then Some(FencedEnd(s, runEnd, s[i], runEnd - i))
    else if s[i] != '`' then None
    else InlineEnd(s, i, runEnd)
  }

  /** The lines of a fenced block, one after the other. */
  method FencedBlockEnd(text: string, first: nat, character: char, runLength: nat) returns (end: nat)
    requires first <= |text|
    ensures end == FenceEnd(text, first, character, runLength)
  {
    var cursor := first;
    while cursor < |text|
      invariant cursor <= |text| && FenceEnd(text, cursor, character, runLength) == FenceEnd(text, first, character, runLength)
      decreases |text| - cursor
    {
      var next := NextLine(text, cursor);
      if ClosesAt(text, cursor, character, runLength) {
        return next;
      }
      cursor := next;
    }
    return |text|;
  }

  method EndOfRun(text: string, position: nat) returns (runEnd: nat)
    requires position < |text|
    ensures runEnd == RunEnd(text, position, text[position])
  {
    runEnd := position + 1;
    while runEnd < |text| && text[runEnd] == text[position]
      invariant position < runEnd <= |text| && RunEnd(text, runEnd, text[position]) == RunEnd(text, position, text[position])
    {
      runEnd := runEnd + 1;
    }
  }

  /** A fenced block: the rest of its opening line, then its lines. */
  method FencedCodeEnd(text: string, runEnd: nat, character: char, runLength: nat) returns (end: nat)
    requires runEnd <= |text|
    ensures end == FencedEnd(text, runEnd, character, runLength)
  {
    if LineEnd(text, runEnd) == |text| {
      return |text|;
    }
    end := FencedBlockEnd(text, LineEnd(text, runEnd) + 1, character, runLength);
  }

  method MarkdownCodeEnd(text: string, position: nat) returns (r: Option<nat>)
    requires position < |text|
    ensures r == CodeEnd(text, position)
  {
    var character := text[position];
    if !IsTick(character) {
      return None;
    }
    var runEnd := EndOfRun(text, position);
    if OpensFence(text, position) {
      var end := FencedCodeEnd(text, runEnd, character, runEnd - position);
      return Some(end);
    }
    if character != '`' {
      return None;
    }
    return InlineEnd(text, position, runEnd);
  }

  /** A line of a block that starts at `cursor` starts at `i`. */
  predicate LineOf(s: string, cursor: nat, i: nat) {
    cursor <= i < |s| && (i == cursor || s[i - 1] == '\n')
  }

  /** The block ends with its first closing line, or with the text when no line closes it. */
  lemma {:induction false} FenceEndMeans(s: string, cursor: nat, c: char, length: nat)
    requires cursor <= |s|
    ensures var end := FenceEnd(s, cursor, c, length);
            if exists i: nat :: LineOf(s, cursor, i) && ClosesAt(s, i, c, length)
            then exists i: nat :: && LineOf(s, cursor, i) && ClosesAt(s, i, c, length) && end == NextLine(s, i)
                                  && forall j: nat :: j < i && LineOf(s, cursor, j) ==> !ClosesAt(s, j, c, length)
            else end == |s|
    decreases |s| - cursor
  {
    if cursor < |s| {
      var next := NextLine(s, cursor);
      LinesFollow(s, cursor);
      if ClosesAt(s, cursor, c, length) {
        assert LineOf(s, cursor, cursor);
      } else {
        FenceEndMeans(s, next, c, length);
        if i: nat :| LineOf(s, next, i) && ClosesAt(s, i, c, length) {
          var first: nat :| && LineOf(s, next, first) && ClosesAt(s, first, c, length)
                            && FenceEnd(s, next, c, length) == NextLine(s, first)
                            && forall j: nat :: j < first && LineOf(s, next, j) ==> !ClosesAt(s, j, c, length);
          assert LineOf(s, cursor, first);
        }
      }
    }
  }

  lemma LinesFollow(s: string, cursor: nat)
    requires cursor < |s|
    ensures forall i: nat :: LineOf(s, cursor, i) <==> (i == cursor || LineOf(s, NextLine(s, cursor), i))
  {
    var end := LineEnd(s, cursor);
    forall i: nat | cursor <= i < end ensures s[i] != '\n' { assert s[cursor..end][i - cursor] == s[i]; }
  }

  // ---- what code is ----

  // Stated on the characters of the text, without the functions above.

  ghost predicate AllOf(s: string, chars: set<char>) {
    forall k :: 0 <= k < |s| ==> s[k] in chars
  }

  /** Up to three spaces, at least three ticks that start with `c`, as many as opened the block, and blanks. */
  ghost predicate IsClosingLine(line: string, c: char, length: nat) {
    exists a, f, b :: && line == a + f + b && |a| <= 3 && AllOf(a, {' '}) && AllOf(b, {' ', '\t'})
                      && |f| >= 3 && |f| >= length && f[0] == c && AllOf(f, {'`', '~'})
  }

  /** A line of the text after `from` stands between `a` and `b`. */
  ghost predicate IsLine(s: string, from: nat, a: nat, b: nat) {
    from <= a < |s| && a <= b <= |s| && (a == from || s[a - 1] == '\n') && '\n' !in s[a..b] && (b < |s| ==> s[b] == '\n')
  }

  ghost predicate IsClosed(s: string, from: nat, c: char, length: nat, a: nat, b: nat) {
    IsLine(s, from, a, b) && IsClosingLine(s[a..b], c, length)
  }

  /** A block whose lines start at `from` ends after its first closing line, or with the text. */
  ghost predicate IsBlockEnd(s: string, from: nat, c: char, length: nat, end: nat) {
    if exists a: nat, b: nat :: IsClosed(s, from, c, length, a, b)
    then exists a: nat, b: nat :: && IsClosed(s, from, c, length, a, b) && end == (if b < |s| then b + 1 else b)
                                  && forall i: nat, j: nat :: i < a ==> !IsClosed(s, from, c, length, i, j)
    else end == |s|
  }

  /** The characters from `i` to `runEnd` are all `c`, and the next one is not. */
  ghost predicate IsRun(s: string, i: nat, runEnd: nat, c: char) {
    i < runEnd <= |s| && AllOf(s[i..runEnd], {c}) && (runEnd < |s| ==> s[runEnd] != c)
  }

  /** At most three spaces come before `i` on its line. */
  ghost predicate IsIndented(s: string, i: nat) {
    exists start: nat :: start <= i <= |s| && i - start <= 3 && (start == 0 || s[start - 1] == '\n') && AllOf(s[start..i], {' '})
  }

  /** The line that covers `i` ends with the break at `e`. */
  ghost predicate IsNextBreak(s: string, i: nat, e: nat) {
    i <= e < |s| && s[e] == '\n' && forall k :: i <= k < e ==> s[k] != '\n'
  }

  /** The fenced block whose opening run ends at `runEnd`. */
  ghost predicate IsFencedEnd(s: string, runEnd: nat, c: char, length: nat, end: nat) {
    || (exists e: nat :: IsNextBreak(s, runEnd, e) && IsBlockEnd(s, e + 1, c, length, end))
    || (end == |s| && forall e: nat :: !IsNextBreak(s, runEnd, e))
  }

  /** Where the code that begins at `i` ends: a fenced block, or a span of backticks that the same run closes. */
  ghost predicate IsCodeEnd(s: string, i: nat, end: nat) {
    && i < |s| && (s[i] == '`' || s[i] == '~')
    && exists runEnd: nat :: IsFence(s, i, runEnd, end) || IsSpan(s, i, runEnd, end)
  }

  ghost predicate OpensBlock(s: string, i: nat, runEnd: nat) {
    runEnd - i >= 3 && IsIndented(s, i)
  }

  ghost predicate IsFence(s: string, i: nat, runEnd: nat, end: nat)
    requires i < |s|
  {
    IsRun(s, i, runEnd, s[i]) && OpensBlock(s, i, runEnd) && IsFencedEnd(s, runEnd, s[i], runEnd - i, end)
  }

  ghost predicate IsSpan(s: string, i: nat, runEnd: nat, end: nat)
    requires i < |s|
  {
    && s[i] == '`' && IsRun(s, i, runEnd, s[i]) && !OpensBlock(s, i, runEnd)
    && runEnd <= end - (runEnd - i) && OccursAt(s, s[i..runEnd], end - (runEnd - i))
    && forall k :: runEnd <= k < end - (runEnd - i) ==> !OccursAt(s, s[i..runEnd], k)
  }

  lemma BlankIff(s: string)
    ensures IsBlank(s) <==> AllOf(s, {' ', '\t'})
  {
  }

  lemma ClosingParts(line: string, c: char, length: nat, a: string, f: string, b: string)
    requires line == a + f + b && AllOf(a, {' '}) && AllOf(b, {' ', '\t'}) && f != [] && AllOf(f, {'`', '~'})
    ensures SpacesEnd(line, 0) == |a| && TicksEnd(line, |a|) == |a| + |f| && line[|a|..|a| + |f|] == f && line[|a| + |f|..] == b
  {
    assert line[|a|] == f[0];
    forall k | 0 <= k < |a| ensures line[k] == ' ' { assert line[k] == a[k]; }
    RunEndIs(line, 0, ' ', |a|);
    forall k | |a| <= k < |a| + |f| ensures IsTick(line[k]) { assert line[k] == f[k - |a|]; }
    if b != [] { assert line[|a| + |f|] == b[0]; }
    TicksEndIs(line, |a|, |a| + |f|);
  }

  lemma {:induction false} RunEndIs(s: string, i: nat, c: char, end: nat)
    requires i <= end <= |s| && (forall k :: i <= k < end ==> s[k] == c) && (end < |s| ==> s[end] != c)
    ensures RunEnd(s, i, c) == end
    decreases |s| - i
  {
    if i < end { RunEndIs(s, i + 1, c, end); }
  }

  lemma {:induction false} TicksEndIs(s: string, i: nat, end: nat)
    requires i <= end <= |s| && (forall k :: i <= k < end ==> IsTick(s[k])) && (end < |s| ==> !IsTick(s[end]))
    ensures TicksEnd(s, i) == end
    decreases |s| - i
  {
    if i < end { TicksEndIs(s, i + 1, end); }
  }

  lemma ClosingLineIff(line: string, c: char, length: nat)
    ensures ClosesFence(line, c, length) <==> IsClosingLine(line, c, length)
  {
    if ClosesFence(line, c, length) {
      var spaces := SpacesEnd(line, 0);
      var ticks := TicksEnd(line, spaces);
      var a, f, b := line[..spaces], line[spaces..ticks], line[ticks..];
      assert line == a + f + b;
      BlankIff(b);
      assert f[0] == line[spaces];
      assert AllOf(f, {'`', '~'}) by { assert forall k :: 0 <= k < |f| ==> f[k] == line[spaces + k]; }
    }
    if IsClosingLine(line, c, length) {
      var a, f, b :| && line == a + f + b && |a| <= 3 && AllOf(a, {' '}) && AllOf(b, {' ', '\t'})
                     && |f| >= 3 && |f| >= length && f[0] == c && AllOf(f, {'`', '~'});
      ClosingParts(line, c, length, a, f, b);
      BlankIff(b);
      assert line[|a|] == f[0];
    }
  }

  lemma {:induction false} LineEndIs(s: string, i: nat, end: nat)
    requires i <= end <= |s| && (forall k :: i <= k < end ==> s[k] != '\n') && (end < |s| ==> s[end] == '\n')
    ensures LineEnd(s, i) == end
    decreases |s| - i
  {
    if i < end { LineEndIs(s, i + 1, end); }
  }

  lemma LineIff(s: string, from: nat, a: nat, b: nat)
    ensures IsLine(s, from, a, b) <==> LineOf(s, from, a) && a < |s| && b == LineEnd(s, a)
  {
    if IsLine(s, from, a, b) {
      forall k | a <= k < b ensures s[k] != '\n' { assert s[a..b][k - a] == s[k]; }
      LineEndIs(s, a, b);
    }
  }

  lemma ClosedIff(s: string, from: nat, c: char, length: nat, a: nat, b: nat)
    ensures IsClosed(s, from, c, length, a, b) <==> LineOf(s, from, a) && a < |s| && ClosesAt(s, a, c, length) && b == LineEnd(s, a)
  {
    LineIff(s, from, a, b);
    if a < |s| && a <= b <= |s| { ClosingLineIff(s[a..b], c, length); }
  }

  lemma BlockEndIs(s: string, from: nat, c: char, length: nat)
    requires from <= |s|
    ensures IsBlockEnd(s, from, c, length, FenceEnd(s, from, c, length))
  {
    FenceEndMeans(s, from, c, length);
    forall a: nat, b: nat
      ensures IsClosed(s, from, c, length, a, b) <==> LineOf(s, from, a) && a < |s| && ClosesAt(s, a, c, length) && b == LineEnd(s, a)
    {
      ClosedIff(s, from, c, length, a, b);
    }
    if i: nat :| LineOf(s, from, i) && ClosesAt(s, i, c, length) {
      assert IsClosed(s, from, c, length, i, LineEnd(s, i));
      var first: nat :| && LineOf(s, from, first) && ClosesAt(s, first, c, length) && FenceEnd(s, from, c, length) == NextLine(s, first)
                        && forall j: nat :: j < first && LineOf(s, from, j) ==> !ClosesAt(s, j, c, length);
      assert IsClosed(s, from, c, length, first, LineEnd(s, first));
    }
  }

  lemma {:induction false} LineStartIs(s: string, start: nat, i: nat)
    requires start <= i <= |s| && (start == 0 || s[start - 1] == '\n') && forall k :: start <= k < i ==> s[k] != '\n'
    ensures LineStart(s, i) == start
    decreases i
  {
    if start < i { LineStartIs(s, start, i - 1); }
  }

  lemma IndentedIff(s: string, i: nat)
    requires i < |s|
    ensures IsIndented(s, i) <==> i - LineStart(s, i) <= 3 && forall k :: LineStart(s, i) <= k < i ==> s[k] == ' '
  {
    if IsIndented(s, i) {
      var a: nat :| a <= i <= |s| && i - a <= 3 && (a == 0 || s[a - 1] == '\n') && AllOf(s[a..i], {' '});
      forall k | a <= k < i ensures s[k] == ' ' { assert s[a..i][k - a] == s[k]; }
      LineStartIs(s, a, i);
    } else if i - LineStart(s, i) <= 3 && forall k :: LineStart(s, i) <= k < i ==> s[k] == ' ' {
      assert AllOf(s[LineStart(s, i)..i], {' '});
    }
  }

  lemma NextBreakIff(s: string, i: nat, e: nat)
    requires i <= |s|
    ensures IsNextBreak(s, i, e) <==> e < |s| && e == LineEnd(s, i)
  {
    var end := LineEnd(s, i);
    forall k | i <= k < end ensures s[k] != '\n' { assert s[i..end][k - i] == s[k]; }
    if IsNextBreak(s, i, e) { LineEndIs(s, i, e); }
  }

  lemma BlockIsFenced(s: string, runEnd: nat, c: char, length: nat, e: nat, end: nat)
    requires IsNextBreak(s, runEnd, e) && IsBlockEnd(s, e + 1, c, length, end)
    ensures IsFencedEnd(s, runEnd, c, length, end)
  {
  }

  lemma NoBlockIsFenced(s: string, runEnd: nat, c: char, length: nat)
    requires forall e: nat :: !IsNextBreak(s, runEnd, e)
    ensures IsFencedEnd(s, runEnd, c, length, |s|)
  {
  }

  lemma UnbrokenIsFenced(s: string, runEnd: nat, c: char, length: nat)
    requires runEnd <= |s| && LineEnd(s, runEnd) == |s|
    ensures IsFencedEnd(s, runEnd, c, length, |s|)
  {
    forall e: nat ensures !IsNextBreak(s, runEnd, e) { NextBreakIff(s, runEnd, e); }
    NoBlockIsFenced(s, runEnd, c, length);
  }

  lemma BreakIsFenced(s: string, runEnd: nat, c: char, length: nat, e: nat)
    requires runEnd <= |s| && e == LineEnd(s, runEnd) < |s|
    ensures IsFencedEnd(s, runEnd, c, length, FenceEnd(s, e + 1, c, length))
  {
    NextBreakIff(s, runEnd, e);
    BlockEndIs(s, e + 1, c, length);
    BlockIsFenced(s, runEnd, c, length, e, FenceEnd(s, e + 1, c, length));
  }

  lemma FencedEndIs(s: string, runEnd: nat, c: char, length: nat) returns (end: nat)
    requires runEnd <= |s|
    ensures end == FencedEnd(s, runEnd, c, length) && IsFencedEnd(s, runEnd, c, length, end)
  {
    var e := LineEnd(s, runEnd);
    if e == |s| {
      UnbrokenIsFenced(s, runEnd, c, length);
      return e;
    }
    end := FenceEnd(s, e + 1, c, length);
    BreakIsFenced(s, runEnd, c, length, e);
  }

  lemma RunIff(s: string, i: nat, runEnd: nat)
    requires i < |s|
    ensures IsRun(s, i, runEnd, s[i]) <==> runEnd == RunEnd(s, i, s[i])
  {
    var r := RunEnd(s, i, s[i]);
    if IsRun(s, i, runEnd, s[i]) {
      forall k | i <= k < runEnd ensures s[k] == s[i] { assert s[i..runEnd][k - i] == s[k]; }
      RunEndIs(s, i, s[i], runEnd);
    }
  }

  lemma OneEnd(s: string, i: nat, end: nat)
    requires IsCodeEnd(s, i, end)
    ensures CodeEnd(s, i).Some?
  {
    IndentedIff(s, i);
    forall runEnd: nat ensures IsRun(s, i, runEnd, s[i]) <==> runEnd == RunEnd(s, i, s[i]) { RunIff(s, i, runEnd); }
  }

  lemma OpensIff(s: string, i: nat, runEnd: nat)
    requires i < |s| && runEnd == RunEnd(s, i, s[i])
    ensures IsRun(s, i, runEnd, s[i]) && (OpensFence(s, i) <==> OpensBlock(s, i, runEnd))
  {
    RunIff(s, i, runEnd);
    IndentedIff(s, i);
  }

  lemma FencedEndIsCode(s: string, i: nat, runEnd: nat) returns (end: nat)
    requires i < |s| && IsTick(s[i]) && IsRun(s, i, runEnd, s[i]) && OpensBlock(s, i, runEnd)
    ensures end == FencedEnd(s, runEnd, s[i], runEnd - i) && IsCodeEnd(s, i, end)
  {
    hide FencedEnd;
    end := FencedEndIs(s, runEnd, s[i], runEnd - i);
    assert IsFence(s, i, runEnd, end);
  }

  lemma FenceMeans(s: string, i: nat)
    requires i < |s| && IsTick(s[i]) && OpensFence(s, i)
    ensures CodeEnd(s, i).Some? && IsCodeEnd(s, i, CodeEnd(s, i).value)
  {
    hide FencedEnd;
    var runEnd := RunEnd(s, i, s[i]);
    OpensIff(s, i, runEnd);
    var end := FencedEndIsCode(s, i, runEnd);
  }

  lemma SpanMeans(s: string, i: nat)
    requires i < |s| && IsTick(s[i]) && !OpensFence(s, i) && CodeEnd(s, i).Some?
    ensures IsCodeEnd(s, i, CodeEnd(s, i).value)
  {
    var runEnd := RunEnd(s, i, s[i]);
    OpensIff(s, i, runEnd);
    assert IsSpan(s, i, runEnd, CodeEnd(s, i).value);
  }

  /** Code begins at a place exactly when it ends somewhere, and it ends there. */
  lemma CodeEndMeans(s: string, i: nat)
    requires i < |s|
    ensures var r := CodeEnd(s, i);
            if r.Some? then IsCodeEnd(s, i, r.value) else forall end: nat :: !IsCodeEnd(s, i, end)
  {
    if CodeEnd(s, i).None? {
      forall end: nat ensures !IsCodeEnd(s, i, end) { if IsCodeEnd(s, i, end) { OneEnd(s, i, end); } }
    } else if OpensFence(s, i) {
      FenceMeans(s, i);
    } else {
      SpanMeans(s, i);
    }
  }

  // ---- pieces ----

  datatype Piece = Piece(start: nat, end: nat, code: bool)

  function Pieces(s: string, start: nat, position: nat): seq<Piece>
    requires start <= position <= |s|
    decreases |s| - position
  {
    if position == |s| then TextPiece(start, position)
    else
      var end := CodeEnd(s, position);
      if end.None? then Pieces(s, start, position + 1)
      else TextPiece(start, position) + [Piece(position, end.value, true)] + Pieces(s, end.value, end.value)
  }

  function TextPiece(start: nat, position: nat): seq<Piece> {
    if start < position then [Piece(start, position, false)] else []
  }

  function PieceText(s: string, rewrite: string -> string, p: Piece): string {
    if p.start <= p.end <= |s| then if p.code then s[p.start..p.end] else rewrite(s[p.start..p.end]) else []
  }

  function Rendered(s: string, rewrite: string -> string, pieces: seq<Piece>): string {
    if pieces == [] then [] else PieceText(s, rewrite, pieces[0]) + Rendered(s, rewrite, pieces[1..])
  }

  lemma {:induction false} RenderedConcat(s: string, rewrite: string -> string, a: seq<Piece>, b: seq<Piece>)
    ensures Rendered(s, rewrite, a + b) == Rendered(s, rewrite, a) + Rendered(s, rewrite, b)
  {
    if a == [] {
      assert a + b == b;
    } else {
      assert (a + b)[1..] == a[1..] + b;
      RenderedConcat(s, rewrite, a[1..], b);
    }
  }

  lemma RenderedOne(s: string, rewrite: string -> string, p: Piece)
    ensures Rendered(s, rewrite, [p]) == PieceText(s, rewrite, p)
  {
    assert Rendered(s, rewrite, []) == [];
  }

  lemma RenderedStep(s: string, rewrite: string -> string, start: nat, position: nat, end: nat)
    requires start <= position < end <= |s| && CodeEnd(s, position) == Some(end)
    ensures Rendered(s, rewrite, Pieces(s, start, position))
         == Rendered(s, rewrite, TextPiece(start, position)) + s[position..end] + Rendered(s, rewrite, Pieces(s, end, end))
  {
    var code := Piece(position, end, true);
    RenderedConcat(s, rewrite, TextPiece(start, position) + [code], Pieces(s, end, end));
    RenderedConcat(s, rewrite, TextPiece(start, position), [code]);
    RenderedOne(s, rewrite, code);
  }

  // ---- image tokens ----

  datatype Match = Match(end: nat, id: string)

  type Matcher = (string, nat) -> Option<Match>

  datatype Image = Image(description: string, path: string)

  // The two regular expressions, and the Markdown of the images the question declares.
  datatype Tokens = Tokens(wrapper: Matcher, token: Matcher, images: map<string, string>)

  /** A match is not empty and lies inside the text. */
  ghost predicate AreTokens(k: Tokens) {
    && (forall t: string, i: nat {:trigger k.wrapper(t, i)} :: i < |t| && k.wrapper(t, i).Some? ==> i < k.wrapper(t, i).value.end <= |t|)
    && (forall t: string, i: nat {:trigger k.token(t, i)} :: i < |t| && k.token(t, i).Some? ==> i < k.token(t, i).value.end <= |t|)
  }

  function ReplaceAll(s: string, c: char, text: string): string {
    if s == [] then [] else (if s[0] == c then text else [s[0]]) + ReplaceAll(s[1..], c, text)
  }

  function EscapedAlt(description: string): string {
    ReplaceAll(ReplaceAll(ReplaceAll(description, '\\', "\\\\"), '[', "\\["), ']', "\\]")
  }

  function ImageMarkdown(image: Image): string {
    "![" + EscapedAlt(image.description) + "](" + image.path + ")"
  }

  // An image as the question declares it.
  datatype Declared = Declared(id: string, image: Image)

  /** The Markdown of the images of a question; a later declaration of an id replaces an earlier one. */
  function ImageMap(isProper: Declared -> bool, images: seq<Declared>): map<string, string> {
    if images == [] then map[]
    else
      var older, last := ImageMap(isProper, images[..|images| - 1]), images[|images| - 1];
      if isProper(last) then older[last.id := ImageMarkdown(last.image)] else older
  }

  method FaqImageMap(isProper: Declared -> bool, images: seq<Declared>) returns (r: map<string, string>)
    ensures r == ImageMap(isProper, images)
  {
    r := map[];
    for i := 0 to |images|
      invariant r == ImageMap(isProper, images[..i])
    {
      assert images[..i + 1][..i] == images[..i];
      var image := images[i];
      if !isProper(image) {
        continue;
      }
      r := r[image.id := ImageMarkdown(image.image)];
    }
    assert images[..|images|] == images;
  }

  /** `images[i]` is the last proper declaration of its id. */
  ghost predicate IsLastProper(isProper: Declared -> bool, images: seq<Declared>, i: int) {
    0 <= i < |images| && isProper(images[i]) && forall j :: i < j < |images| && images[j].id == images[i].id ==> !isProper(images[j])
  }

  /** A token resolves exactly to the last proper declaration of its id. */
  lemma {:induction false} LastProperIsUsed(isProper: Declared -> bool, images: seq<Declared>, id: string, markdown: string)
    ensures id in ImageMap(isProper, images) && ImageMap(isProper, images)[id] == markdown
        <==> exists i :: IsLastProper(isProper, images, i) && images[i].id == id && ImageMarkdown(images[i].image) == markdown
  {
    if images != [] {
      var n := |images| - 1;
      var older, last := images[..n], images[n];
      LastProperIsUsed(isProper, older, id, markdown);
      if isProper(last) && last.id == id {
        assert IsLastProper(isProper, images, n);
      } else {
        forall i | 0 <= i < n && older[i].id == id ensures IsLastProper(isProper, images, i) <==> IsLastProper(isProper, older, i) {}
      }
    }
  }

  function Resolved(k: Tokens, id: string): string {
    if id in k.images then k.images[id] else []
  }

  /** What the text at `position` becomes, and where the next piece of it starts. */
  function TokenAt(k: Tokens, text: string, position: nat): (r: (string, nat))
    requires position < |text|
    ensures position < r.1
  {
    var wrapper, token := k.wrapper(text, position), k.token(text, position);
    if wrapper.Some? && position < wrapper.value.end then (Resolved(k, wrapper.value.id), wrapper.value.end)
    else if token.Some? && position < token.value.end then (Resolved(k, token.value.id), token.value.end)
    else ([text[position]], position + 1)
  }

  function InText(k: Tokens, text: string, position: nat): string
    decreases |text| - position
  {
    if position >= |text| then [] else TokenAt(k, text, position).0 + InText(k, text, TokenAt(k, text, position).1)
  }

  function Rewriting(k: Tokens): string -> string {
    (text: string) => InText(k, text, 0)
  }

  lemma InTextStep(k: Tokens, text: string, done: string, position: nat)
    requires position < |text|
    ensures var r := TokenAt(k, text, position);
            done + InText(k, text, position) == done + r.0 + InText(k, text, r.1)
  {
    var r := TokenAt(k, text, position);
    Regroup(done, r.0, InText(k, text, r.1), []);
  }

  method ReplaceImageTokensInText(k: Tokens, text: string) returns (result: string)
    requires AreTokens(k)
    ensures result == InText(k, text, 0)
  {
    result := [];
    var position: nat := 0;
    while position < |text|
      invariant position <= |text| && result + InText(k, text, position) == InText(k, text, 0)
      decreases |text| - position
    {
      InTextStep(k, text, result, position);
      var wrapper := k.wrapper(text, position);
      if wrapper.Some? {
        result := result + (if wrapper.value.id in k.images then k.images[wrapper.value.id] else []);
        position := wrapper.value.end;
        continue;
      }
      var token := k.token(text, position);
      if token.Some? {
        result := result + (if token.value.id in k.images then k.images[token.value.id] else []);
        position := token.value.end;
        continue;
      }
      result := result + [text[position]];
      position := position + 1;
    }
  }

  /** What the result becomes: the part written and the rest rendered. */
  ghost function Outlook(s: string, rewrite: string -> string, done: string, start: nat, position: nat): string
    requires start <= position <= |s|
  {
    done + Rendered(s, rewrite, Pieces(s, start, position))
  }

  lemma OutlookStep(s: string, rewrite: string -> string, done: string, start: nat, position: nat, end: nat)
    requires start <= position < end <= |s| && CodeEnd(s, position) == Some(end)
    ensures var written := if start < position then done + rewrite(s[start..position]) else done;
            Outlook(s, rewrite, written + s[position..end], end, end) == Outlook(s, rewrite, done, start, position)
  {
    RenderedStep(s, rewrite, start, position, end);
    RenderedOne(s, rewrite, Piece(start, position, false));
    var text := if start < position then rewrite(s[start..position]) else [];
    Regroup(done, text, s[position..end], Rendered(s, rewrite, Pieces(s, end, end)));
    assert start == position ==> done + text == done;
  }

  lemma OutlookAtEnd(s: string, rewrite: string -> string, done: string, start: nat)
    requires start <= |s|
    ensures Outlook(s, rewrite, done, start, |s|) == if start < |s| then done + rewrite(s[start..]) else done
  {
    RenderedOne(s, rewrite, Piece(start, |s|, false));
    assert s[start..|s|] == s[start..];
  }

  method ReplaceImageTokensOutsideCode(k: Tokens, answer: string) returns (result: string)
    requires AreTokens(k)
    ensures result == Rendered(answer, Rewriting(k), Pieces(answer, 0, 0))
  {
    result := [];
    var start: nat, position: nat := 0, 0;
    while position < |answer|
      invariant start <= position <= |answer|
      invariant Outlook(answer, Rewriting(k), result, start, position) == Rendered(answer, Rewriting(k), Pieces(answer, 0, 0))
      decreases |answer| - position
    {
      var end := MarkdownCodeEnd(answer, position);
      if end.None? {
        position := position + 1;
        continue;
      }
      OutlookStep(answer, Rewriting(k), result, start, position, end.value);
      if start < position {
        var text := ReplaceImageTokensInText(k, answer[start..position]);
        assert text == Rewriting(k)(answer[start..position]);
        result := result + text;
      }
      result := result + answer[position..end.value];
      position := end.value;
      start := position;
    }
    OutlookAtEnd(answer, Rewriting(k), result, start);
    if start < |answer| {
      var text := ReplaceImageTokensInText(k, answer[start..]);
      result := result + text;
    }
  }

  /** An answer with the tokens of its question's declared images resolved. */
  method ReplaceImageTokens(wrapper: Matcher, token: Matcher, isProper: Declared -> bool, images: seq<Declared>, answer: string)
    returns (result: string)
    requires AreTokens(Tokens(wrapper, token, ImageMap(isProper, images)))
    ensures result == Rendered(answer, Rewriting(Tokens(wrapper, token, ImageMap(isProper, images))), Pieces(answer, 0, 0))
  {
    var imageMap := FaqImageMap(isProper, images);
    result := ReplaceImageTokensOutsideCode(Tokens(wrapper, token, imageMap), answer);
  }

  // ---- what the pieces are ----

  /** The pieces follow one another from `from` to `to`. */
  ghost predicate PieceChain(pieces: seq<Piece>, from: nat, to: nat) {
    if pieces == [] then from == to
    else pieces[0].start == from < pieces[0].end && PieceChain(pieces[1..], pieces[0].end, to)
  }

  /** Code is a span or fence; in a piece of text none begins. */
  ghost predicate IsPiece(s: string, p: Piece) {
    && p.start < p.end <= |s|
    && (p.code ==> CodeEnd(s, p.start) == Some(p.end))
    && (!p.code ==> NoCode(s, p.start, p.end))
  }

  ghost predicate NoCode(s: string, from: nat, to: nat)
    requires to <= |s|
  {
    forall i :: from <= i < to ==> CodeEnd(s, i) == None
  }

  ghost predicate TextIsMaximal(pieces: seq<Piece>) {
    forall i :: 0 <= i < |pieces| - 1 ==> pieces[i].code || pieces[i + 1].code
  }

  /** The pieces cover the answer in order; no two pieces of text are neighbours. */
  lemma {:induction false} PiecesCover(s: string, start: nat, position: nat)
    requires start <= position <= |s| && NoCode(s, start, position)
    ensures var pieces := Pieces(s, start, position);
            && PieceChain(pieces, start, |s|) && TextIsMaximal(pieces) && forall p :: p in pieces ==> IsPiece(s, p)
    decreases |s| - position
  {
    hide CodeEnd;
    if position < |s| {
      var end := CodeEnd(s, position);
      if end.None? {
        PiecesCover(s, start, position + 1);
      } else {
        PiecesCover(s, end.value, end.value);
        CodeAhead(s, start, Piece(position, end.value, true), Pieces(s, end.value, end.value));
      }
    } else if start < position {
      assert PieceChain([], |s|, |s|);
    }
  }

  lemma CodeAhead(s: string, from: nat, code: Piece, rest: seq<Piece>)
    requires from <= code.start < |s| && code.code && IsPiece(s, code) && NoCode(s, from, code.start)
    requires PieceChain(rest, code.end, |s|) && TextIsMaximal(rest) && forall p :: p in rest ==> IsPiece(s, p)
    ensures var pieces := TextPiece(from, code.start) + [code] + rest;
            PieceChain(pieces, from, |s|) && TextIsMaximal(pieces) && forall p :: p in pieces ==> IsPiece(s, p)
  {
    var tail := [code] + rest;
    assert tail[1..] == rest;
    assert PieceChain(tail, code.start, |s|) && TextIsMaximal(tail);
    var text := Piece(from, code.start, false);
    if from < code.start {
      assert [text] + [code] + rest == [text] + tail && ([text] + tail)[1..] == tail;
      assert IsPiece(s, text);
    } else {
      assert [] + [code] + rest == tail;
    }
  }

  /** Put together again, the pieces are the answer. */
  lemma {:induction false} PiecesConcatenate(s: string, pieces: seq<Piece>, from: nat)
    requires PieceChain(pieces, from, |s|) && forall p :: p in pieces ==> p.end <= |s|
    ensures from <= |s| && Rendered(s, (t: string) => t, pieces) == s[from..]
  {
    if pieces != [] {
      PiecesConcatenate(s, pieces[1..], pieces[0].end);
      assert s[from..pieces[0].end] + s[pieces[0].end..] == s[from..];
    }
  }

  /** The pieces of an answer, put together, are the answer. */
  lemma AnswerIsItsPieces(s: string)
    ensures Rendered(s, (t: string) => t, Pieces(s, 0, 0)) == s
  {
    PiecesCover(s, 0, 0);
    PiecesConcatenate(s, Pieces(s, 0, 0), 0);
  }

  /** A piece of code stands in the result as it stands in the answer. */
  lemma CodeIsVerbatim(s: string, rewrite: string -> string, k: nat)
    requires k < |Pieces(s, 0, 0)| && Pieces(s, 0, 0)[k].code
    ensures var pieces := Pieces(s, 0, 0); var p := pieces[k];
            p.start < p.end <= |s|
            && Rendered(s, rewrite, pieces)
               == Rendered(s, rewrite, pieces[..k]) + s[p.start..p.end] + Rendered(s, rewrite, pieces[k + 1..])
  {
    var pieces := Pieces(s, 0, 0);
    PiecesCover(s, 0, 0);
    assert pieces[k] in pieces;
    assert pieces == pieces[..k] + [pieces[k]] + pieces[k + 1..];
    RenderedConcat(s, rewrite, pieces[..k] + [pieces[k]], pieces[k + 1..]);
    RenderedConcat(s, rewrite, pieces[..k], [pieces[k]]);
    RenderedOne(s, rewrite, pieces[k]);
  }

  /** A piece of text stands in the result as its rewriting. */
  lemma TextIsRewritten(s: string, rewrite: string -> string, k: nat)
    requires k < |Pieces(s, 0, 0)| && !Pieces(s, 0, 0)[k].code
    ensures var pieces := Pieces(s, 0, 0); var p := pieces[k];
            p.start < p.end <= |s|
            && Rendered(s, rewrite, pieces)
               == Rendered(s, rewrite, pieces[..k]) + rewrite(s[p.start..p.end]) + Rendered(s, rewrite, pieces[k + 1..])
  {
    var pieces := Pieces(s, 0, 0);
    PiecesCover(s, 0, 0);
    assert pieces[k] in pieces;
    assert pieces == pieces[..k] + [pieces[k]] + pieces[k + 1..];
    RenderedConcat(s, rewrite, pieces[..k] + [pieces[k]], pieces[k + 1..]);
    RenderedConcat(s, rewrite, pieces[..k], [pieces[k]]);
    RenderedOne(s, rewrite, pieces[k]);
  }

  /** Two pieces of code can be neighbours, so text and code need not alternate. */
  lemma CodePiecesCanTouch()
    ensures Pieces("`a``b`", 0, 0) == [Piece(0, 3, true), Piece(3, 6, true)]
  {
    var s := "`a``b`";
    assert RunEnd(s, 0, '`') == 1 && RunEnd(s, 3, '`') == 4 by { assert s[1] != '`' && s[4] != '`'; }
    assert s[0..1] == "`" && s[3..4] == "`";
    assert OccursAt(s, "`", 2) && !OccursAt(s, "`", 1) by { assert s[2..][0] == '`' && s[1..][0] == 'a'; }
    assert OccursAt(s, "`", 5) && !OccursAt(s, "`", 4) by { assert s[5..][0] == '`' && s[4..][0] == 'b'; }
    assert InlineEnd(s, 0, 1) == Some(3) && InlineEnd(s, 3, 4) == Some(6);
    assert CodeEnd(s, 0) == Some(3) && CodeEnd(s, 3) == Some(6);
    assert Pieces(s, 6, 6) == [];
    assert Pieces(s, 3, 3) == [Piece(3, 6, true)];
  }

  ghost predicate Alternates(pieces: seq<Piece>) {
    forall i :: 0 <= i < |pieces| - 1 ==> pieces[i].code != pieces[i + 1].code
  }

  lemma {:induction false} ChainMeets(pieces: seq<Piece>, from: nat, to: nat, i: nat)
    requires PieceChain(pieces, from, to) && i < |pieces|
    ensures pieces[i].end == if i + 1 < |pieces| then pieces[i + 1].start else to
    ensures pieces[i].end <= to && (i + 1 < |pieces| ==> pieces[i].end < to)
  {
    if i > 0 {
      ChainMeets(pieces[1..], pieces[0].end, to, i - 1);
    } else if |pieces| > 1 {
      ChainMeets(pieces[1..], pieces[0].end, to, 0);
    }
  }

  /** What follows a piece: code exactly when code begins there. */
  lemma NextPiece(s: string, i: nat)
    requires i < |Pieces(s, 0, 0)|
    ensures var pieces := Pieces(s, 0, 0);
            && pieces[i].end <= |s| && (pieces[i].end < |s| <==> i + 1 < |pieces|)
            && (i + 1 < |pieces| ==> (pieces[i + 1].code <==> CodeEnd(s, pieces[i].end).Some?) && (pieces[i].code || pieces[i + 1].code))
  {
    var pieces := Pieces(s, 0, 0);
    PiecesCover(s, 0, 0);
    ChainMeets(pieces, 0, |s|, i);
    if i + 1 < |pieces| { assert IsPiece(s, pieces[i + 1]); }
  }

  /** No code begins where the piece ends, if the piece is code. */
  ghost predicate EndsAlone(s: string, p: Piece) {
    p.code && p.end < |s| ==> CodeEnd(s, p.end) == None
  }

  /** Text and code alternate exactly when no code begins where another one ends. */
  lemma AlternatesIff(s: string)
    ensures Alternates(Pieces(s, 0, 0)) <==> forall p :: p in Pieces(s, 0, 0) ==> EndsAlone(s, p)
  {
    var pieces := Pieces(s, 0, 0);
    if Alternates(pieces) {
      forall p | p in pieces ensures EndsAlone(s, p) {
        var i :| 0 <= i < |pieces| && pieces[i] == p;
        NextPiece(s, i);
      }
    }
    if forall p :: p in pieces ==> EndsAlone(s, p) {
      forall i | 0 <= i < |pieces| - 1 ensures pieces[i].code != pieces[i + 1].code {
        NextPiece(s, i);
        assert EndsAlone(s, pieces[i]);
      }
    }
  }

  // ---- resolving tokens ----

  /** What a place in the text becomes: the image of a wrapper or token that stands there, nothing for an unknown one, or itself. */
  lemma TokenBecomes(k: Tokens, text: string, i: nat)
    requires AreTokens(k) && i < |text|
    ensures match k.wrapper(text, i)
            case Some(m) => InText(k, text, i) == (if m.id in k.images then k.images[m.id] else "") + InText(k, text, m.end)
            case None =>
              match k.token(text, i)
              case Some(m) => InText(k, text, i) == (if m.id in k.images then k.images[m.id] else "") + InText(k, text, m.end)
              case None => InText(k, text, i) == [text[i]] + InText(k, text, i + 1)
    ensures forall end :: end >= |text| ==> InText(k, text, end) == []
  {
  }

  /** Text without a token stays as it is. */
  lemma {:induction false} UnmatchedTextStays(k: Tokens, text: string, from: nat, to: nat)
    requires from <= to <= |text| && forall i :: from <= i < to ==> k.wrapper(text, i) == None && k.token(text, i) == None
    ensures InText(k, text, from) == text[from..to] + InText(k, text, to)
    decreases |text| - from
  {
    if from < to {
      UnmatchedTextStays(k, text, from + 1, to);
      assert text[from..to] == [text[from]] + text[from + 1..to];
      Regroup([], [text[from]], text[from + 1..to], InText(k, text, to));
    } else {
      assert text[from..to] == [];
    }
  }

  function EscapedChar(c: char): string {
    if c == '\\' || c == '[' || c == ']' then ['\\', c] else [c]
  }

  function Escaped(description: string): string {
    if description == [] then [] else EscapedChar(description[0]) + Escaped(description[1..])
  }

  lemma {:induction false} ReplaceAllConcat(a: string, b: string, c: char, text: string)
    ensures ReplaceAll(a + b, c, text) == ReplaceAll(a, c, text) + ReplaceAll(b, c, text)
  {
    if a == [] {
      assert a + b == b;
    } else {
      assert (a + b)[1..] == a[1..] + b;
      ReplaceAllConcat(a[1..], b, c, text);
      Regroup([], if a[0] == c then text else [a[0]], ReplaceAll(a[1..], c, text), ReplaceAll(b, c, text));
    }
  }

  /** The three replacements in a row escape each delimiter once. */
  lemma {:induction false} EscapedAltIs(description: string)
    ensures EscapedAlt(description) == Escaped(description)
  {
    if description != [] {
      var c, rest := description[0], description[1..];
      EscapedAltIs(rest);
      var one := if c == '\\' then "\\\\" else [c];
      var r1 := ReplaceAll(rest, '\\', "\\\\");
      ReplaceAllConcat(one, r1, '[', "\\[");
      var two := ReplaceAll(one, '[', "\\[");
      ReplaceAllConcat(two, ReplaceAll(r1, '[', "\\["), ']', "\\]");
      OneCharEscaped(c);
    }
  }

  lemma OneCharEscaped(c: char)
    ensures ReplaceAll(ReplaceAll(if c == '\\' then "\\\\" else [c], '[', "\\["), ']', "\\]") == EscapedChar(c)
  {
    var one: string := if c == '\\' then "\\\\" else [c];
    assert one[1..] == if c == '\\' then ['\\'] else [];
    var two := if c == '[' then "\\[" else one;
    assert ReplaceAll(one, '[', "\\[") == two;
    assert two[1..] == if c == '[' then ['['] else one[1..];
    assert ReplaceAll(two, ']', "\\]") == EscapedChar(c);
  }

  /** Escaped text holds no bracket that a Markdown scanner would see. */
  lemma {:induction false} EscapedCloses(s: string, i: nat, description: string)
    requires var alt := Escaped(description);
             && i + |alt| < |s| && s[i + |alt|] == ']' && forall j :: 0 <= j < |alt| ==> s[i + j] == alt[j]
    ensures Closing(LABEL, s, i, 0) == Some(i + |Escaped(description)|)
    decreases |description|
  {
    if description != [] {
      var e, rest := EscapedChar(description[0]), Escaped(description[1..]);
      var alt := e + rest;
      assert s[i + 0] == alt[0] == e[0];
      forall j | 0 <= j < |rest| ensures s[i + |e| + j] == rest[j] { assert s[i + (|e| + j)] == alt[|e| + j]; }
      EscapedCloses(s, i + |e|, description[1..]);
    }
  }

  /** Whatever the description says, the label of the image ends where the description ends. */
  lemma DescriptionStaysInLabel(image: Image)
    ensures Closing(LABEL, ImageMarkdown(image), 2, 0) == Some(2 + |EscapedAlt(image.description)|)
  {
    EscapedAltIs(image.description);
    EscapedCloses(ImageMarkdown(image), 2, image.description);
  }

  /** The Markdown of an image: its description with every delimiter escaped, and its path. */
  lemma ImageMarkdownIs(image: Image)
    ensures ImageMarkdown(image) == "![" + Escaped(image.description) + "](" + image.path + ")"
  {
    EscapedAltIs(image.description);
  }
}
