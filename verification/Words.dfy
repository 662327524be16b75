/** Decimal numbers and blank-separated words. */
module Words {
  import opened Text

  // ---- decimal numbers ----

  predicate IsDigits(s: string) {
    s != [] && forall i :: 0 <= i < |s| ==> '0' <= s[i] <= '9'
  }

  function DigitChar(n: nat): char
    requires n < 10
  {
    ('0' as int + n) as char
  }

  function Decimal(n: nat): (r: string)
    ensures IsDigits(r)
  {
    if n < 10 then [DigitChar(n)] else Decimal(n / 10) + [DigitChar(n % 10)]
  }

  function Value(s: string): nat
    requires forall i :: 0 <= i < |s| ==> '0' <= s[i] <= '9'
  {
    if s == [] then 0 else 10 * Value(s[..|s| - 1]) + (s[|s| - 1] as int - '0' as int)
  }

  /** Reading a printed number gives the number. */
  lemma {:induction false} ValueOfDecimal(n: nat)
    ensures Value(Decimal(n)) == n
  {
    if n >= 10 {
      ValueOfDecimal(n / 10);
      var r := Decimal(n);
      assert r[..|r| - 1] == Decimal(n / 10);
    } else {
      assert Value([DigitChar(n)][..0]) == 0;
    }
  }

  // ---- words ----

  function WordEnd(isSpace: char -> bool, s: string, i: nat): (r: nat)
    requires i <= |s|
    ensures i <= r <= |s| && (forall k :: i <= k < r ==> !isSpace(s[k])) && (r < |s| ==> isSpace(s[r]))
    decreases |s| - i
  {
    if i == |s| || isSpace(s[i]) then i else WordEnd(isSpace, s, i + 1)
  }

  /** `s.split()` from `i` on. */
  function WordsFrom(isSpace: char -> bool, s: string, i: nat): seq<string>
    requires i <= |s|
    decreases |s| - i
  {
    if i == |s| then []
    else if isSpace(s[i]) then WordsFrom(isSpace, s, i + 1)
    else [s[i..WordEnd(isSpace, s, i)]] + WordsFrom(isSpace, s, WordEnd(isSpace, s, i))
  }

  /** `s.lstrip()` and `s.rstrip()` in turn. */
  function Stripped(isSpace: char -> bool, s: string): string {
    StrippedRight(isSpace, StrippedLeft(isSpace, s))
  }

  function StrippedLeft(isSpace: char -> bool, s: string): string {
    if s == [] || !isSpace(s[0]) then s else StrippedLeft(isSpace, s[1..])
  }

  function StrippedRight(isSpace: char -> bool, s: string): string {
    if s == [] || !isSpace(s[|s| - 1]) then s else StrippedRight(isSpace, s[..|s| - 1])
  }

  ghost predicate IsWord(isSpace: char -> bool, w: string) {
    w != [] && forall i :: 0 <= i < |w| ==> !isSpace(w[i])
  }

  lemma {:induction false} WordEndIs(isSpace: char -> bool, s: string, i: nat, end: nat)
    requires i <= end <= |s| && (forall k :: i <= k < end ==> !isSpace(s[k])) && (end < |s| ==> isSpace(s[end]))
    ensures WordEnd(isSpace, s, i) == end
  {
    var r := WordEnd(isSpace, s, i);
    assert (r < |s| ==> isSpace(s[r])) && (end < |s| ==> isSpace(s[end]));
  }

  /** `s` ends, from `i` on, with `t`. */
  ghost predicate EndsWithFrom(s: string, i: nat, t: string) {
    i + |t| == |s| && forall k :: 0 <= k < |t| ==> s[i + k] == t[k]
  }

  /** A word and the blank after it are read off. */
  lemma WordIsRead(isSpace: char -> bool, w: string, s: string, i: nat, tail: string)
    requires IsWord(isSpace, w) && EndsWithFrom(s, i, w + tail) && (tail == [] || isSpace(tail[0]))
    ensures WordsFrom(isSpace, s, i) == [w] + WordsFrom(isSpace, s, i + |w|)
    ensures EndsWithFrom(s, i + |w|, tail)
  {
    var t := w + tail;
    forall k | 0 <= k < |w| ensures s[i + k] == w[k] { assert t[k] == w[k]; }
    forall k | 0 <= k < |tail| ensures s[i + |w| + k] == tail[k] { assert s[i + (|w| + k)] == t[|w| + k]; }
    assert s[i..i + |w|] == w;
    assert s[i + 0] == w[0];
    forall k | i <= k < i + |w| ensures !isSpace(s[k]) { assert s[i + (k - i)] == w[k - i]; }
    assert tail != [] ==> s[i + |w| + 0] == tail[0];
    WordEndIs(isSpace, s, i, i + |w|);
  }

  lemma JoinStep(words: seq<string>)
    requires |words| > 1
    ensures Join(words, ' ') == words[0] + ([' '] + Join(words[1..], ' '))
  {
  }

  lemma AfterBlank(s: string, i: nat, tail: string)
    requires EndsWithFrom(s, i, [' '] + tail)
    ensures i < |s| && s[i] == ' ' && EndsWithFrom(s, i + 1, tail)
  {
    var t := [' '] + tail;
    assert s[i + 0] == t[0];
    forall k | 0 <= k < |tail| ensures s[i + 1 + k] == tail[k] { assert s[i + (1 + k)] == t[1 + k]; }
  }

  /** The first of several words and the blank after it are read off. */
  lemma FirstWord(isSpace: char -> bool, w: string, rest: seq<string>, s: string, i: nat)
    requires isSpace(' ') && IsWord(isSpace, w) && rest != [] && EndsWithFrom(s, i, w + ([' '] + Join(rest, ' ')))
    ensures i + |w| + 1 <= |s| && EndsWithFrom(s, i + |w| + 1, Join(rest, ' '))
    ensures WordsFrom(isSpace, s, i) == [w] + WordsFrom(isSpace, s, i + |w| + 1)
  {
    WordIsRead(isSpace, w, s, i, [' '] + Join(rest, ' '));
    AfterBlank(s, i + |w|, Join(rest, ' '));
  }

  /** Words joined by blanks split into the same words. */
  lemma {:induction false} WordsOfJoin(isSpace: char -> bool, words: seq<string>, s: string, i: nat)
    requires isSpace(' ') && (forall k :: 0 <= k < |words| ==> IsWord(isSpace, words[k])) && EndsWithFrom(s, i, Join(words, ' '))
    ensures WordsFrom(isSpace, s, i) == words
    decreases |words|
  {
    if |words| == 1 {
      assert words[0] + [] == words[0];
      WordIsRead(isSpace, words[0], s, i, []);
    } else if |words| > 1 {
      JoinStep(words);
      FirstWord(isSpace, words[0], words[1..], s, i);
      WordsOfJoin(isSpace, words[1..], s, i + |words[0]| + 1);
      assert words == [words[0]] + words[1..];
    }
  }

  lemma {:induction false} JoinEnds(isSpace: char -> bool, words: seq<string>)
    requires words != [] && forall w :: w in words ==> IsWord(isSpace, w)
    ensures var s := Join(words, ' '); s != [] && !isSpace(s[0]) && !isSpace(s[|s| - 1]) && words[0] <= s
  {
    assert words[0] in words;
    if |words| > 1 {
      assert forall w :: w in words[1..] ==> w in words;
      JoinEnds(isSpace, words[1..]);
      var rest := Join(words[1..], ' ');
      var s := Join(words, ' ');
      assert s == words[0] + ([' '] + rest);
      assert s[|s| - 1] == rest[|rest| - 1];
    }
  }

  // ---- what words are ----

  ghost predicate AllSpaces(isSpace: char -> bool, s: string) {
    forall k :: 0 <= k < |s| ==> isSpace(s[k])
  }

  /** The text is these words with white space before, between and after them. */
  ghost predicate SplitsInto(isSpace: char -> bool, s: string, words: seq<string>)
    decreases |words|
  {
    if words == [] then AllSpaces(isSpace, s)
    else exists gap, rest :: && s == gap + words[0] + rest && AllSpaces(isSpace, gap) && IsWord(isSpace, words[0])
                             && (rest == [] || isSpace(rest[0])) && SplitsInto(isSpace, rest, words[1..])
  }

  /** The words of a text are its maximal stretches without white space. */
  lemma {:induction false} WordsAre(isSpace: char -> bool, s: string, i: nat)
    requires i <= |s|
    ensures SplitsInto(isSpace, s[i..], WordsFrom(isSpace, s, i))
    decreases |s| - i
  {
    var words := WordsFrom(isSpace, s, i);
    if i < |s| && isSpace(s[i]) {
      WordsAre(isSpace, s, i + 1);
      assert s[i..] == [s[i]] + s[i + 1..];
      OneMoreSpace(isSpace, s[i], s[i + 1..], words);
    } else if i < |s| {
      var end := WordEnd(isSpace, s, i);
      WordsAre(isSpace, s, end);
      assert s[i..] == [] + s[i..end] + s[end..] && words[0] == s[i..end] && words[1..] == WordsFrom(isSpace, s, end);
      assert SplitsInto(isSpace, s[i..], words);
    }
  }

  lemma OneMoreSpace(isSpace: char -> bool, c: char, s: string, words: seq<string>)
    requires isSpace(c) && SplitsInto(isSpace, s, words)
    ensures SplitsInto(isSpace, [c] + s, words)
  {
    if words != [] {
      var gap, rest :| && s == gap + words[0] + rest && AllSpaces(isSpace, gap) && IsWord(isSpace, words[0])
                       && (rest == [] || isSpace(rest[0])) && SplitsInto(isSpace, rest, words[1..]);
      assert [c] + s == ([c] + gap) + words[0] + rest;
    }
  }

  /** Stripping takes the white space off both ends. */
  lemma StrippedIs(isSpace: char -> bool, s: string)
    ensures var r := Stripped(isSpace, s);
            && (exists a, b :: s == a + r + b && AllSpaces(isSpace, a) && AllSpaces(isSpace, b))
            && (r != [] ==> !isSpace(r[0]) && !isSpace(r[|r| - 1]))
  {
    var a := LeftIs(isSpace, s);
    var b := RightIs(isSpace, StrippedLeft(isSpace, s));
    var r := Stripped(isSpace, s);
    assert s == a + r + b;
    if r != [] { assert StrippedLeft(isSpace, s)[0] == r[0]; }
  }

  lemma {:induction false} LeftIs(isSpace: char -> bool, s: string) returns (a: string)
    ensures s == a + StrippedLeft(isSpace, s) && AllSpaces(isSpace, a)
    ensures StrippedLeft(isSpace, s) != [] ==> !isSpace(StrippedLeft(isSpace, s)[0])
  {
    a := [];
    if s != [] && isSpace(s[0]) {
      var rest := LeftIs(isSpace, s[1..]);
      a := [s[0]] + rest;
    }
  }

  lemma {:induction false} RightIs(isSpace: char -> bool, s: string) returns (b: string)
    ensures s == StrippedRight(isSpace, s) + b && AllSpaces(isSpace, b)
    ensures StrippedRight(isSpace, s) != [] ==> !isSpace(StrippedRight(isSpace, s)[|StrippedRight(isSpace, s)| - 1])
  {
    b := [];
    if s != [] && isSpace(s[|s| - 1]) {
      var rest := RightIs(isSpace, s[..|s| - 1]);
      b := rest + [s[|s| - 1]];
    }
  }
}
