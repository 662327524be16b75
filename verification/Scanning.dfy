/** Index scans shared by the Markdown scanners. */
module Scanning {
  import opened Wrappers

  /** The end of the run of `c` that covers `i`. */
  function RunEnd(s: string, i: nat, c: char): (r: nat)
    requires i <= |s|
    ensures i <= r <= |s| && (forall k :: i <= k < r ==> s[k] == c) && (r < |s| ==> s[r] != c)
    decreases |s| - i
  {
    if i == |s| || s[i] != c then i else RunEnd(s, i + 1, c)
  }

  predicate OccursAt(s: string, pattern: string, i: int) {
    0 <= i <= |s| && pattern <= s[i..]
  }

  lemma OccursIff(s: string, pattern: string, i: int)
    ensures OccursAt(s, pattern, i) <==> 0 <= i <= |s| && exists rest :: s[i..] == pattern + rest
  {
    if OccursAt(s, pattern, i) { assert s[i..] == pattern + s[i..][|pattern|..]; }
  }

  /** `s.find(pattern, i)`: the first occurrence from `i` on. */
  function FindFrom(s: string, pattern: string, i: nat): (r: Option<nat>)
    requires i <= |s|
    ensures r.Some? ==> i <= r.value && OccursAt(s, pattern, r.value) && r.value + |pattern| <= |s|
    ensures forall k :: i <= k < (if r.Some? then r.value else |s|) ==> !OccursAt(s, pattern, k)
    decreases |s| - i
  {
    if OccursAt(s, pattern, i) then Some(i) else if i == |s| then None else FindFrom(s, pattern, i + 1)
  }

  // ---- escapes and nesting ----

  /** The number of backslashes directly before `i`, counted back to `start`. */
  function Backslashes(s: string, start: nat, i: nat): nat
    requires i <= |s|
    decreases i
  {
    if i <= start || s[i - 1] != '\\' then 0 else 1 + Backslashes(s, start, i - 1)
  }

  /** An even number of backslashes comes before `i`. */
  predicate Unescaped(s: string, start: nat, i: nat)
    requires i <= |s|
  {
    Backslashes(s, start, i) % 2 == 0
  }

  // A closing character, and the opening one that nests with it when there is one.
  datatype Brackets = Brackets(open: Option<char>, close: char)

  const LABEL := Brackets(Some('['), ']')

  ghost predicate AreBrackets(b: Brackets) {
    b.open != Some('\\') && b.close != '\\' && b.open != Some(b.close)
  }

  function Weight(b: Brackets, c: char): int {
    if Some(c) == b.open then 1 else if c == b.close then -1 else 0
  }

  /** Unescaped opening characters minus unescaped closing ones between `start` and `i`. */
  function Depth(b: Brackets, s: string, start: nat, i: nat): int
    requires i <= |s|
    decreases i
  {
    if i <= start then 0
    else Depth(b, s, start, i - 1) + (if Unescaped(s, start, i - 1) then Weight(b, s[i - 1]) else 0)
  }

  /** `k` is where the nesting opened before `start` closes: the first place the depth turns negative. */
  ghost predicate Closes(b: Brackets, s: string, start: nat, k: nat) {
    start <= k < |s| && Depth(b, s, start, k + 1) == -1 && forall j: nat :: start <= j <= k ==> Depth(b, s, start, j) >= 0
  }

  /** The scan: a backslash hides the next character. */
  function Closing(b: Brackets, s: string, index: nat, depth: nat): (r: Option<nat>)
    ensures r.Some? ==> index <= r.value < |s| && s[r.value] == b.close
    decreases |s| - index
  {
    if index >= |s| then None
    else if s[index] == '\\' then Closing(b, s, index + 2, depth)
    else if Some(s[index]) == b.open then Closing(b, s, index + 1, depth + 1)
    else if s[index] == b.close then if depth == 0 then Some(index) else Closing(b, s, index + 1, depth - 1)
    else Closing(b, s, index + 1, depth)
  }

  method FindClosing(b: Brackets, s: string, start: nat) returns (r: Option<nat>)
    ensures r == Closing(b, s, start, 0)
  {
    var depth: nat := 0;
    var index := start;
    while index < |s|
      invariant Closing(b, s, index, depth) == Closing(b, s, start, 0)
      decreases |s| - index
    {
      var character := s[index];
      if character == '\\' {
        index := index + 2;
        continue;
      }
      if Some(character) == b.open {
        depth := depth + 1;
      } else if character == b.close {
        if depth == 0 {
          return Some(index);
        }
        depth := depth - 1;
      }
      index := index + 1;
    }
    return None;
  }

  lemma OneClosing(b: Brackets, s: string, start: nat, j: nat, k: nat)
    requires Closes(b, s, start, j) && Closes(b, s, start, k)
    ensures j == k
  {
  }

  /** The scan stands at an unescaped place of known depth and has not closed yet. */
  ghost predicate ScanAt(b: Brackets, s: string, start: nat, index: nat, depth: nat) {
    && start <= index
    && (index <= |s| ==> Unescaped(s, start, index) && Depth(b, s, start, index) == depth)
    && (forall j: nat :: start <= j <= index && j <= |s| ==> Depth(b, s, start, j) >= 0)
  }

  /** A backslash at an unescaped place hides the next character, which changes nothing. */
  lemma HiddenCharacter(b: Brackets, s: string, start: nat, index: nat, depth: nat)
    requires AreBrackets(b) && ScanAt(b, s, start, index, depth) && index < |s| && s[index] == '\\'
    ensures ScanAt(b, s, start, index + 2, depth)
  {
    assert Depth(b, s, start, index + 1) == depth;
    if index + 1 < |s| {
      assert Backslashes(s, start, index + 1) == Backslashes(s, start, index) + 1;
      assert Depth(b, s, start, index + 2) == depth;
    }
  }

  /** After an ordinary or a bracket character the depth changes by its weight. */
  lemma NextCharacter(b: Brackets, s: string, start: nat, index: nat, depth: nat)
    requires AreBrackets(b) && ScanAt(b, s, start, index, depth) && index < |s| && s[index] != '\\' && depth + Weight(b, s[index]) >= 0
    ensures ScanAt(b, s, start, index + 1, depth + Weight(b, s[index]))
  {
    assert Depth(b, s, start, index + 1) == depth + Weight(b, s[index]);
  }

  lemma NeverCloses(b: Brackets, s: string, start: nat, index: nat, depth: nat)
    requires ScanAt(b, s, start, index, depth) && index >= |s|
    ensures forall k: nat :: !Closes(b, s, start, k)
  {
    forall k: nat ensures !Closes(b, s, start, k) {
      if start <= k < |s| { assert Depth(b, s, start, k + 1) >= 0; }
    }
  }

  lemma {:induction false} ScanCloses(b: Brackets, s: string, start: nat, index: nat, depth: nat)
    requires AreBrackets(b) && ScanAt(b, s, start, index, depth)
    ensures var r := Closing(b, s, index, depth);
            if r.Some? then Closes(b, s, start, r.value) else forall k: nat :: !Closes(b, s, start, k)
    decreases |s| - index
  {
    if index >= |s| {
      NeverCloses(b, s, start, index, depth);
    } else {
      var c := s[index];
      if c == '\\' {
        HiddenCharacter(b, s, start, index, depth);
        ScanCloses(b, s, start, index + 2, depth);
      } else if c == b.close && Some(c) != b.open && depth == 0 {
        assert Depth(b, s, start, index + 1) == -1;
        assert Closes(b, s, start, index);
      } else {
        NextCharacter(b, s, start, index, depth);
        ScanCloses(b, s, start, index + 1, depth + Weight(b, c));
      }
    }
  }

  /** The scan returns a place exactly when it is the matching unescaped closing character. */
  lemma ClosingIff(b: Brackets, s: string, start: nat, k: nat)
    requires AreBrackets(b)
    ensures Closing(b, s, start, 0) == Some(k) <==> Closes(b, s, start, k)
  {
    ScanCloses(b, s, start, start, 0);
    var r := Closing(b, s, start, 0);
    if Closes(b, s, start, k) && r.Some? { OneClosing(b, s, start, k, r.value); }
  }

  /** Without nesting, that is the first unescaped closing character. */
  lemma {:induction false} FlatClosingIff(s: string, target: char, start: nat, k: nat)
    requires target != '\\'
    ensures Closing(Brackets(None, target), s, start, 0) == Some(k)
        <==> && start <= k < |s| && s[k] == target && Unescaped(s, start, k)
             && forall j: nat :: start <= j < k ==> !(s[j] == target && Unescaped(s, start, j))
  {
    var b := Brackets(None, target);
    ClosingIff(b, s, start, k);
    if start <= k < |s| {
      if Closes(b, s, start, k) {
        forall j: nat | start <= j < k ensures !(s[j] == target && Unescaped(s, start, j)) {
          FlatDepth(s, target, start, j);
          assert Depth(b, s, start, j + 1) >= 0;
        }
        FlatDepth(s, target, start, k);
      }
      if s[k] == target && Unescaped(s, start, k) && forall j: nat :: start <= j < k ==> !(s[j] == target && Unescaped(s, start, j)) {
        FlatIsZero(s, target, start, k);
        assert Depth(b, s, start, k + 1) == Depth(b, s, start, k) - 1;
      }
    }
  }

  lemma {:induction false} FlatDepth(s: string, target: char, start: nat, i: nat)
    requires i <= |s|
    ensures Depth(Brackets(None, target), s, start, i) <= 0
    decreases i
  {
    if i > start { FlatDepth(s, target, start, i - 1); }
  }

  lemma {:induction false} FlatIsZero(s: string, target: char, start: nat, k: nat)
    requires k <= |s| && forall j: nat :: start <= j < k ==> !(s[j] == target && Unescaped(s, start, j))
    ensures forall i: nat :: i <= k ==> Depth(Brackets(None, target), s, start, i) == 0
    decreases k
  {
    if k > 0 { FlatIsZero(s, target, start, k - 1); }
  }
}
