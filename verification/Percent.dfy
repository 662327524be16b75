/**
 Percent escapes: the bounded decoding loop, quoting, and how the two relate. Texts are
 sequences of UTF-8 bytes, one `char` below 256 each.
 */
module Percent {
  import opened Wrappers
  import opened Text

  predicate IsHex(c: char) {
    '0' <= c <= '9' || 'a' <= c <= 'f' || 'A' <= c <= 'F'
  }

  function HexValue(c: char): (n: nat)
    requires IsHex(c)
    ensures n < 16
  {
    if c <= '9' then (c as int) - ('0' as int)
    else if c <= 'F' then (c as int) - ('A' as int) + 10
    else (c as int) - ('a' as int) + 10
  }

  function HexDigit(n: nat): (c: char)
    requires n < 16
    ensures IsHex(c) && HexValue(c) == n
  {
    if n < 10 then (('0' as int) + n) as char else (('A' as int) + (n - 10)) as char
  }

  predicate EscapeAt(s: string, i: int) {
    0 <= i && i + 2 < |s| && s[i] == '%' && IsHex(s[i + 1]) && IsHex(s[i + 2])
  }

  predicate HasEscape(s: string) {
    exists i :: 0 <= i < |s| && EscapeAt(s, i)
  }

  predicate IsMalformed(s: string) {
    exists i :: 0 <= i < |s| && s[i] == '%' && !EscapeAt(s, i)
  }

  function EscapedByte(s: string): char
    requires EscapeAt(s, 0)
  {
    (16 * HexValue(s[1]) + HexValue(s[2])) as char
  }

  /** One round of unquoting: every escape becomes its byte, left to right. */
  function Unquote(s: string): string {
    if s == [] then []
    else if EscapeAt(s, 0) then [EscapedByte(s)] + Unquote(s[3..])
    else [s[0]] + Unquote(s[1..])
  }

  // ---- the bounded decoding loop ----

  /** What the text library decides: strict decoding succeeds, and a text holds a control character. */
  datatype Codec = Codec(decodes: string -> bool, control: string -> bool)

  const MAX_ROUNDS: nat := 3

  function Rounds(codec: Codec, s: string, rounds: nat): Option<string>
    decreases rounds
  {
    if !HasEscape(s) then Some(s)
    else if rounds == 0 then None
    else if !codec.decodes(s) || codec.control(Unquote(s)) then None
    else if Unquote(s) == s then Some(s)
    else Rounds(codec, Unquote(s), rounds - 1)
  }

  function Decoded(codec: Codec, s: string): Option<string> {
    if IsMalformed(s) then None else Rounds(codec, s, MAX_ROUNDS)
  }

  method BoundedPercentDecode(codec: Codec, value: string) returns (r: Option<string>)
    ensures r == Decoded(codec, value)
  {
    if IsMalformed(value) {
      return None;
    }
    var decoded := value;
    for round := 0 to MAX_ROUNDS
      invariant Rounds(codec, decoded, MAX_ROUNDS - round) == Rounds(codec, value, MAX_ROUNDS)
    {
      if !HasEscape(decoded) {
        return Some(decoded);
      }
      if !codec.decodes(decoded) {
        return None;
      }
      var updated := Unquote(decoded);
      if codec.control(updated) {
        return None;
      }
      if updated == decoded {
        return Some(decoded);
      }
      decoded := updated;
    }
    if HasEscape(decoded) {
      return None;
    }
    return Some(decoded);
  }

  /** A round with something to decode shrinks the text, and one without changes nothing. */
  lemma {:induction false} UnquoteShrinks(s: string)
    ensures if HasEscape(s) then |Unquote(s)| + 2 <= |s| else Unquote(s) == s
    decreases |s|
  {
    if s != [] {
      if EscapeAt(s, 0) {
        UnquoteShrinks(s[3..]);
      } else {
        UnquoteShrinks(s[1..]);
        if HasEscape(s) {
          var i :| 0 <= i < |s| && EscapeAt(s, i);
          assert EscapeAt(s[1..], i - 1);
        } else if HasEscape(s[1..]) {
          var i :| 0 <= i < |s[1..]| && EscapeAt(s[1..], i);
          assert EscapeAt(s, i + 1);
        }
      }
    }
  }

  /** The text after `k` rounds. */
  function Unquoted(s: string, k: nat): string
    decreases k
  {
    if k == 0 then s else Unquoted(Unquote(s), k - 1)
  }

  /** Round `j` is needed and allowed. */
  ghost predicate RoundRuns(codec: Codec, s: string, j: nat) {
    var before := Unquoted(s, j);
    HasEscape(before) && codec.decodes(before) && !codec.control(Unquoted(s, j + 1))
  }

  ghost predicate StopsAfter(codec: Codec, s: string, k: nat, d: string) {
    d == Unquoted(s, k) && !HasEscape(d) && forall j: nat :: j < k ==> RoundRuns(codec, s, j)
  }

  lemma {:induction false} RoundsStop(codec: Codec, s: string, rounds: nat, d: string)
    ensures Rounds(codec, s, rounds) == Some(d) <==> exists k: nat :: k <= rounds && StopsAfter(codec, s, k, d)
    decreases rounds
  {
    UnquoteShrinks(s);
    assert Unquoted(s, 0) == s && Unquoted(s, 1) == Unquote(s);
    if HasEscape(s) && rounds > 0 {
      RoundsStop(codec, Unquote(s), rounds - 1, d);
      if Rounds(codec, s, rounds) == Some(d) {
        var k: nat :| k <= rounds - 1 && StopsAfter(codec, Unquote(s), k, d);
        forall j: nat | j < k + 1 ensures RoundRuns(codec, s, j) {
          if j > 0 { assert RoundRuns(codec, Unquote(s), j - 1); }
        }
        assert StopsAfter(codec, s, k + 1, d);
      }
      if k: nat :| k <= rounds && StopsAfter(codec, s, k, d) {
        assert RoundRuns(codec, s, 0);
        forall j: nat | j < k - 1 ensures RoundRuns(codec, Unquote(s), j) { assert RoundRuns(codec, s, j + 1); }
        assert StopsAfter(codec, Unquote(s), k - 1, d);
      }
    } else if HasEscape(s) {
      assert !StopsAfter(codec, s, 0, d);
    } else {
      assert StopsAfter(codec, s, 0, s);
      forall k: nat | k > 0 ensures !StopsAfter(codec, s, k, d) { assert !RoundRuns(codec, s, 0); }
    }
  }

  /**
   A text decodes exactly when it is well formed and is free of escapes after at most
   three rounds, each of which was needed, decodable and free of control characters.
   */
  lemma DecodedIff(codec: Codec, s: string, d: string)
    ensures Decoded(codec, s) == Some(d)
        <==> !IsMalformed(s) && exists k: nat :: k <= MAX_ROUNDS && StopsAfter(codec, s, k, d)
  {
    RoundsStop(codec, s, MAX_ROUNDS, d);
  }

  lemma DecodedHasNoEscape(codec: Codec, s: string)
    requires Decoded(codec, s).Some?
    ensures !HasEscape(Decoded(codec, s).value)
  {
    DecodedIff(codec, s, Decoded(codec, s).value);
  }

  // ---- quoting ----

  predicate IsBytes(s: string) {
    forall i :: 0 <= i < |s| ==> s[i] as int < 256
  }

  predicate IsLetter(c: char) {
    'a' <= c <= 'z' || 'A' <= c <= 'Z'
  }

  predicate IsSafe(c: char, safe: char -> bool) {
    IsLetter(c) || IsDigit(c) || c == '_' || c == '.' || c == '-' || c == '~' || safe(c)
  }

  predicate AllSafe(s: string, safe: char -> bool) {
    forall i :: 0 <= i < |s| ==> IsSafe(s[i], safe)
  }

  function QuoteByte(c: char, safe: char -> bool): (r: string)
    ensures |r| == if IsSafe(c, safe) then 1 else 3
  {
    if IsSafe(c, safe) then [c] else ['%', HexDigit(c as int / 16 % 16), HexDigit(c as int % 16)]
  }

  function Quote(s: string, safe: char -> bool): string {
    if s == [] then [] else QuoteByte(s[0], safe) + Quote(s[1..], safe)
  }

  /** Quoting with the percent sign unsafe is undone by a single round of unquoting. */
  lemma {:induction false} UnquoteQuote(s: string, safe: char -> bool)
    requires IsBytes(s) && !safe('%')
    ensures Unquote(Quote(s, safe)) == s
  {
    if s != [] {
      var q, rest := QuoteByte(s[0], safe), Quote(s[1..], safe);
      UnquoteQuote(s[1..], safe);
      if IsSafe(s[0], safe) {
        assert (q + rest)[1..] == rest;
      } else {
        assert (q + rest)[3..] == rest && EscapeAt(q + rest, 0);
        ByteOfDigits(s[0]);
      }
      assert [s[0]] + s[1..] == s;
    }
  }

  lemma ByteOfDigits(c: char)
    requires c as int < 256
    ensures 16 * HexValue(HexDigit(c as int / 16 % 16)) + HexValue(HexDigit(c as int % 16)) == c as int
  {
  }

  lemma {:induction false} QuoteConcat(a: string, b: string, safe: char -> bool)
    ensures Quote(a + b, safe) == Quote(a, safe) + Quote(b, safe)
  {
    if a == [] {
      assert a + b == b;
    } else {
      assert (a + b)[1..] == a[1..] + b;
      QuoteConcat(a[1..], b, safe);
    }
  }

  lemma {:induction false} QuoteSafe(s: string, safe: char -> bool)
    requires AllSafe(s, safe)
    ensures Quote(s, safe) == s
  {
    if s != [] {
      QuoteSafe(s[1..], safe);
      assert [s[0]] + s[1..] == s;
    }
  }

  /** Only safe characters, the percent sign and hexadecimal digits come out. */
  lemma {:induction false} QuoteAvoids(s: string, safe: char -> bool, c: char)
    requires !IsSafe(c, safe) && c != '%'
    ensures c !in Quote(s, safe)
  {
    if s != [] {
      QuoteAvoids(s[1..], safe, c);
      assert c !in QuoteByte(s[0], safe);
    }
  }

  /** Quoting two different texts gives two different results. */
  lemma QuoteInjective(s: string, t: string, safe: char -> bool)
    requires IsBytes(s) && AllSafe(t, safe) && !safe('%')
    ensures Quote(s, safe) == t <==> s == t
  {
    UnquoteQuote(s, safe);
    QuoteSafe(t, safe);
    if Quote(s, safe) == t {
      NoPercentNoEscape(t, safe);
    }
  }

  lemma NoPercentNoEscape(t: string, safe: char -> bool)
    requires AllSafe(t, safe) && !safe('%')
    ensures Unquote(t) == t
  {
    UnquoteShrinks(t);
  }

  lemma {:induction false} QuotePrefix(s: string, t: string, safe: char -> bool)
    requires AllSafe(t, safe) && !safe('%')
    ensures t <= Quote(s, safe) <==> t <= s
  {
    if t != [] && s != [] {
      QuotePrefix(s[1..], t[1..], safe);
      var q := Quote(s, safe);
      assert q[0] == QuoteByte(s[0], safe)[0] && (IsSafe(s[0], safe) ==> q[1..] == Quote(s[1..], safe));
      assert t == [t[0]] + t[1..] && s == [s[0]] + s[1..];
      if t <= q {
        assert t[0] == q[0] && IsSafe(t[0], safe);
        assert t[1..] <= q[1..];
      }
      if t <= s {
        assert t[0] == s[0] && t[1..] <= s[1..];
        assert q == [s[0]] + Quote(s[1..], safe);
      }
    }
  }

  lemma {:induction false} QuoteIsLonger(s: string, safe: char -> bool)
    ensures |Quote(s, safe)| >= |s|
  {
    if s != [] { QuoteIsLonger(s[1..], safe); }
  }

  /** A suffix lies in the second part, or reaches into the first. */
  lemma SuffixOfTwo(x: string, rest: string, t: string)
    ensures |t| <= |rest| ==> (EndsWith(x + rest, t) <==> EndsWith(rest, t))
    ensures |rest| < |t| <= |x + rest| ==> (EndsWith(x + rest, t) <==> x[|x| + |rest| - |t|..] + rest == t)
  {
    var k := |x| + |rest| - |t|;
    if |t| <= |rest| {
      assert (x + rest)[k..] == rest[|rest| - |t|..];
    } else if 0 <= k {
      assert (x + rest)[k..] == x[k..] + rest;
    }
  }

  lemma {:induction false} QuoteSuffix(s: string, t: string, safe: char -> bool)
    requires IsBytes(s) && AllSafe(t, safe) && !safe('%') && t != [] && !IsHex(t[0])
    ensures EndsWith(Quote(s, safe), t) <==> EndsWith(s, t)
  {
    if s != [] {
      var q, tail, rest := QuoteByte(s[0], safe), s[1..], Quote(s[1..], safe);
      assert s == [s[0]] + tail;
      QuoteSuffix(tail, t, safe);
      QuoteIsLonger(tail, safe);
      QuoteInjective(s, t, safe);
      SuffixOfTwo(q, rest, t);
      SuffixOfTwo([s[0]], tail, t);
      SuffixOfAll(s, t);
      SuffixOfAll(Quote(s, safe), t);
      if |rest| < |t| <= |q + rest| && q[|q| + |rest| - |t|..] + rest == t {
        assert t[0] == q[|q| + |rest| - |t|];
      }
    }
  }

  lemma SuffixOfAll(s: string, t: string)
    ensures |s| == |t| ==> (EndsWith(s, t) <==> s == t)
  {
    assert s[0..] == s;
  }

  // ---- what an escape is ----

  /** The digit has this value, in either case. */
  ghost predicate IsDigitOf(c: char, n: nat) {
    if n < 10 then c as int == '0' as int + n
    else n < 16 && (c as int == 'a' as int + (n - 10) || c as int == 'A' as int + (n - 10))
  }

  lemma DigitIff(c: char)
    ensures IsHex(c) <==> exists n: nat :: IsDigitOf(c, n)
    ensures IsHex(c) ==> IsDigitOf(c, HexValue(c))
  {
    if IsHex(c) { assert IsDigitOf(c, HexValue(c)); }
  }

  /** A text that starts with an escape of the byte. */
  ghost predicate StartsWithEscape(s: string, byte: char) {
    |s| >= 3 && s[0] == '%' && exists a: nat, b: nat :: IsDigitOf(s[1], a) && IsDigitOf(s[2], b) && byte as int == 16 * a + b
  }

  /** A round turns the escape that stands first into its byte, and leaves any other first character. */
  lemma UnquoteMeans(s: string)
    requires s != []
    ensures if exists byte :: StartsWithEscape(s, byte)
            then exists byte :: StartsWithEscape(s, byte) && Unquote(s) == [byte] + Unquote(s[3..])
            else Unquote(s) == [s[0]] + Unquote(s[1..])
    ensures Unquote([]) == []
  {
    if |s| >= 3 {
      DigitIff(s[1]);
      DigitIff(s[2]);
      if EscapeAt(s, 0) { assert StartsWithEscape(s, EscapedByte(s)); }
    }
  }

  /** A text is malformed when a percent sign in it does not start an escape. */
  lemma MalformedIff(s: string)
    ensures IsMalformed(s) <==> exists i :: 0 <= i < |s| && s[i] == '%' && forall byte :: !StartsWithEscape(s[i..], byte)
    ensures HasEscape(s) <==> exists i, byte :: 0 <= i < |s| && StartsWithEscape(s[i..], byte)
  {
    forall i | 0 <= i < |s| ensures EscapeAt(s, i) <==> exists byte :: StartsWithEscape(s[i..], byte) {
      if i + 2 < |s| {
        var rest := s[i..];
        assert rest[0] == s[i] && rest[1] == s[i + 1] && rest[2] == s[i + 2];
        DigitIff(s[i + 1]);
        DigitIff(s[i + 2]);
        if EscapeAt(s, i) { assert StartsWithEscape(rest, EscapedByte(rest)); }
      }
    }
  }
}
