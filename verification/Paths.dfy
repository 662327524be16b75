/**
 Normalising the path of a sign-in return target, compared with the algorithm of
 section 5.2.4 of RFC 3986.
 */
module Paths {
  import opened Text
  import opened Wrappers

  function ForwardSlashes(s: string): (r: string)
    ensures |r| == |s| && forall i :: 0 <= i < |s| ==> r[i] == if s[i] == '\\' then '/' else s[i]
  {
    if s == [] then [] else [if s[0] == '\\' then '/' else s[0]] + ForwardSlashes(s[1..])
  }

  predicate Rooted(s: string) {
    s != [] && s[0] == '/'
  }

  predicate DoublyRooted(s: string) {
    |s| > 1 && s[0] == '/' && s[1] == '/'
  }

  /** An absolute path that names no host. */
  predicate IsLocal(path: string) {
    Rooted(path) && !DoublyRooted(path)
  }

  predicate EndsInSlash(s: string) {
    s != [] && s[|s| - 1] == '/'
  }

  predicate IsDots(segment: string) {
    segment == "." || segment == ".."
  }

  /** One segment on the stack of segments kept so far. */
  function Push(stack: seq<string>, segment: string): seq<string> {
    if segment == "" || segment == "." then stack
    else if segment == ".." then if stack == [] then [] else stack[..|stack| - 1]
    else stack + [segment]
  }

  function Reduce(stack: seq<string>, segments: seq<string>): seq<string>
    decreases |segments|
  {
    if segments == [] then stack else Reduce(Push(stack, segments[0]), segments[1..])
  }

  function Rendered(stack: seq<string>, trailing: bool): string {
    var path := "/" + Join(stack, '/');
    if trailing && path != "/" then path + "/" else path
  }

  /** The path ends with a slash, with a slash and a dot, or with a slash and two dots. */
  predicate TrailingSlash(path: string) {
    var n := |path|;
    || EndsInSlash(path)
    || (n > 1 && path[n - 1] == '.' && path[n - 2] == '/')
    || (n > 2 && path[n - 1] == '.' && path[n - 2] == '.' && path[n - 3] == '/')
  }

  function Normalized(path: string): Option<string> {
    var p := ForwardSlashes(path);
    if !IsLocal(p) then None else Some(Rendered(Reduce([], Split(p, '/')), TrailingSlash(p)))
  }

  method NormalizeAbsolutePath(path: string) returns (r: Option<string>)
    ensures r == Normalized(path)
  {
    var p := ForwardSlashes(path);
    if !IsLocal(p) {
      return None;
    }
    var trailing := TrailingSlash(p);
    var segments: seq<string> := [];
    var pieces := Split(p, '/');
    for i := 0 to |pieces|
      invariant Reduce(segments, pieces[i..]) == Reduce([], pieces)
    {
      assert pieces[i..][1..] == pieces[i + 1..];
      var segment := pieces[i];
      if segment == "" || segment == "." {
        continue;
      }
      if segment == ".." {
        if segments != [] {
          segments := segments[..|segments| - 1];
        }
        continue;
      }
      segments := segments + [segment];
    }
    var normalized := "/" + Join(segments, '/');
    if trailing && normalized != "/" {
      normalized := normalized + "/";
    }
    return Some(normalized);
  }

  // ---- the shape of a normal path ----

  predicate NormalSegment(s: string) {
    s != "" && !IsDots(s) && '/' !in s
  }

  ghost predicate NormalStack(stack: seq<string>) {
    forall s :: s in stack ==> NormalSegment(s)
  }

  lemma {:induction false} ReduceIsNormal(stack: seq<string>, segments: seq<string>)
    requires NormalStack(stack) && forall s :: s in segments ==> '/' !in s
    ensures NormalStack(Reduce(stack, segments))
    decreases |segments|
  {
    if segments != [] { ReduceIsNormal(Push(stack, segments[0]), segments[1..]); }
  }

  lemma {:induction false} ReduceNormal(stack: seq<string>, segments: seq<string>)
    requires NormalStack(segments)
    ensures Reduce(stack, segments) == stack + segments
    decreases |segments|
  {
    if segments == [] {
      assert stack + segments == stack;
    } else {
      assert NormalSegment(segments[0]);
      ReduceNormal(stack + [segments[0]], segments[1..]);
      assert stack + [segments[0]] + segments[1..] == stack + segments;
    }
  }

  lemma {:induction false} ReduceConcat(stack: seq<string>, a: seq<string>, b: seq<string>)
    ensures Reduce(stack, a + b) == Reduce(Reduce(stack, a), b)
    decreases |a|
  {
    if a == [] {
      assert a + b == b;
    } else {
      assert (a + b)[1..] == a[1..] + b;
      ReduceConcat(Push(stack, a[0]), a[1..], b);
    }
  }

  lemma {:induction false} JoinSnoc(pieces: seq<string>, last: string)
    requires pieces != []
    ensures Join(pieces + [last], '/') == Join(pieces, '/') + "/" + last
  {
    if |pieces| > 1 {
      JoinSnoc(pieces[1..], last);
      assert (pieces + [last])[1..] == pieces[1..] + [last];
    }
  }

  function LastOf<T>(xs: seq<T>): T
    requires xs != []
  {
    xs[|xs| - 1]
  }

  /** A path with a slash ends with a slash and a slash-free `x` exactly when its last piece is `x`. */
  lemma EndsWithIsLastPiece(p: string, x: string)
    requires '/' in p && '/' !in x
    ensures EndsWith(p, "/" + x) <==> LastOf(Split(p, '/')) == x
  {
    var pieces := Split(p, '/');
    SplitPieces(p, '/');
    var first := pieces[0];
    assert '/' !in first && (|pieces| == 1 ==> Join(pieces, '/') == first);
    var head, last := pieces[..|pieces| - 1], LastOf(pieces);
    assert pieces == head + [last] && last in pieces;
    JoinSnoc(head, last);
    var front := Join(head, '/');
    assert p == front + "/" + last;
    SlashTail(front, last, x);
  }

  lemma SlashTail(front: string, last: string, x: string)
    requires '/' !in last && '/' !in x
    ensures EndsWith(front + "/" + last, "/" + x) <==> last == x
  {
    var p, t := front + "/" + last, "/" + x;
    if EndsWith(p, t) {
      var k := |p| - |t|;
      assert p[k] == '/' && p[k..][1..] == x;
      assert p[|front|] == '/' && forall i :: |front| < i < |p| ==> p[i] == last[i - |front| - 1];
      assert forall i :: k < i < |p| ==> p[i] == x[i - k - 1];
      assert k == |front|;
    }
  }

  lemma EndsWithOne(p: string, c: char)
    ensures EndsWith(p, [c]) <==> |p| > 0 && p[|p| - 1] == c
  {
    if |p| > 0 { assert p[|p| - 1..] == [p[|p| - 1]]; }
  }

  lemma EndsWithTwo(p: string, c: char, d: char)
    ensures EndsWith(p, [c, d]) <==> |p| > 1 && p[|p| - 2] == c && p[|p| - 1] == d
  {
    if |p| > 1 { assert p[|p| - 2..] == [p[|p| - 2], p[|p| - 1]]; }
  }

  lemma EndsWithThree(p: string, c: char, d: char, e: char)
    ensures EndsWith(p, [c, d, e]) <==> |p| > 2 && p[|p| - 3] == c && p[|p| - 2] == d && p[|p| - 1] == e
  {
    if |p| > 2 { assert p[|p| - 3..] == [p[|p| - 3], p[|p| - 2], p[|p| - 1]]; }
  }

  lemma TrailingSlashIs(p: string)
    ensures TrailingSlash(p) <==> EndsWith(p, ['/']) || EndsWith(p, ['/', '.']) || EndsWith(p, ['/', '.', '.'])
  {
    EndsWithOne(p, '/');
    EndsWithTwo(p, '/', '.');
    EndsWithThree(p, '/', '.', '.');
  }

  lemma TrailingIsLastPiece(p: string)
    requires '/' in p
    ensures TrailingSlash(p) <==> LastOf(Split(p, '/')) == "" || IsDots(LastOf(Split(p, '/')))
  {
    EndsWithIsLastPiece(p, "");
    EndsWithIsLastPiece(p, ".");
    EndsWithIsLastPiece(p, "..");
    TrailingSlashIs(p);
    assert "/" + "" == ['/'] && "/" + "." == ['/', '.'] && "/" + ".." == ['/', '.', '.'];
  }

  /** The pieces of a rendered path: the leading empty one, the segments, and an empty one for a trailing slash. */
  lemma RenderedPieces(stack: seq<string>, trailing: bool)
    requires NormalStack(stack)
    ensures Split(Rendered(stack, trailing), '/')
         == if stack == [] then ["", ""] else [""] + stack + (if trailing then [""] else [])
    ensures IsLocal(Rendered(stack, trailing)) && (stack == [] <==> Rendered(stack, trailing) == "/")
  {
    if stack == [] {
      SplitHead("", '/', "");
      assert [] + ['/'] + [] == "/";
    } else {
      assert NormalSegment(stack[0]);
      var body := Join(stack, '/');
      assert stack[0] <= body by { if |stack| > 1 { assert body == stack[0] + (['/'] + Join(stack[1..], '/')); } }
      var pieces := [""] + stack + (if trailing then [""] else []);
      JoinSnoc([""], stack[0]);
      var all := stack + (if trailing then [""] else []);
      if trailing { JoinSnoc(stack, ""); } else { assert stack + [] == stack; }
      assert pieces == [""] + all && pieces[1..] == all;
      assert Rendered(stack, trailing) == Join(pieces, '/');
      SplitJoin(pieces, '/');
    }
  }

  /** One leading slash, no empty interior segment and no dot segment. */
  ghost predicate IsNormalPath(p: string) {
    var pieces := Split(p, '/');
    && IsLocal(p) && |pieces| >= 2 && pieces[0] == ""
    && (forall i :: 0 < i < |pieces| - 1 ==> pieces[i] != "")
    && (forall i :: 0 <= i < |pieces| ==> !IsDots(pieces[i]))
  }

  lemma NormalizedShape(path: string)
    requires Normalized(path).Some?
    ensures IsNormalPath(Normalized(path).value)
  {
    var p := ForwardSlashes(path);
    var stack := NormalStackOf(path);
    RenderedPieces(stack, TrailingSlash(p));
    forall i | 0 <= i < |stack| ensures NormalSegment(stack[i]) { assert stack[i] in stack; }
  }

  lemma NormalStackOf(path: string) returns (stack: seq<string>)
    requires Normalized(path).Some?
    ensures NormalStack(stack) && stack == Reduce([], Split(ForwardSlashes(path), '/'))
    ensures Normalized(path) == Some(Rendered(stack, TrailingSlash(ForwardSlashes(path))))
  {
    stack := Reduce([], Split(ForwardSlashes(path), '/'));
    SplitPieces(ForwardSlashes(path), '/');
    ReduceIsNormal([], Split(ForwardSlashes(path), '/'));
  }

  lemma NoBackslash(stack: seq<string>, trailing: bool)
    requires forall s :: s in stack ==> '\\' !in s
    ensures '\\' !in Rendered(stack, trailing)
  {
    JoinAvoids(stack, '\\');
  }

  lemma {:induction false} JoinAvoids(pieces: seq<string>, c: char)
    requires c != '/' && forall s :: s in pieces ==> c !in s
    ensures c !in Join(pieces, '/')
  {
    if |pieces| > 1 { JoinAvoids(pieces[1..], c); }
  }

  lemma {:induction false} ReduceOnlyKeeps(stack: seq<string>, segments: seq<string>)
    ensures forall s :: s in Reduce(stack, segments) ==> s in stack || s in segments
    decreases |segments|
  {
    if segments != [] {
      ReduceOnlyKeeps(Push(stack, segments[0]), segments[1..]);
      assert forall s :: s in Push(stack, segments[0]) ==> s in stack || s == segments[0];
    }
  }

  lemma {:induction false} SplitAvoids(s: string, c: char)
    requires c !in s
    ensures forall p :: p in Split(s, '/') ==> c !in p
  {
    if s != [] {
      SplitAvoids(s[1..], c);
      var rest := Split(s[1..], '/');
      assert forall p :: p in Split(s, '/') ==> p in rest || p == "" || p == [s[0]] + rest[0];
      assert rest[0] in rest;
    }
  }

  lemma ForwardSlashesIdentity(s: string)
    requires '\\' !in s
    ensures ForwardSlashes(s) == s
  {
  }

  lemma NormalIsKept(p: string)
    requires IsNormalPath(p) && '\\' !in p
    ensures Normalized(p) == Some(p)
  {
    ForwardSlashesIdentity(p);
    SplitPieces(p, '/');
    TrailingIsLastPiece(p);
    var stack := UnframedPieces(Split(p, '/'), TrailingSlash(p));
    FixedPieces(stack, TrailingSlash(p));
  }

  /** Normalising again changes nothing. */
  lemma NormalizedIsIdempotent(path: string)
    requires Normalized(path).Some?
    ensures Normalized(Normalized(path).value) == Normalized(path)
  {
    NormalizedShape(path);
    NormalizedHasNoBackslash(path);
    NormalIsKept(Normalized(path).value);
  }

  /** Exactly the normal paths without a backslash are left as they are. */
  lemma NormalIsFixed(p: string)
    ensures Normalized(p) == Some(p) <==> IsNormalPath(p) && '\\' !in p
  {
    if Normalized(p) == Some(p) {
      NormalizedShape(p);
      NormalizedHasNoBackslash(p);
    }
    if IsNormalPath(p) && '\\' !in p { NormalIsKept(p); }
  }

  lemma NormalizedHasNoBackslash(path: string)
    requires Normalized(path).Some?
    ensures '\\' !in Normalized(path).value
  {
    var p := ForwardSlashes(path);
    var stack := NormalStackOf(path);
    SplitAvoids(p, '\\');
    ReduceOnlyKeeps([], Split(p, '/'));
    NoBackslash(stack, TrailingSlash(p));
  }

  lemma ReduceFramed(stack: seq<string>, trailing: bool)
    requires NormalStack(stack)
    ensures Reduce([], Framed(stack, trailing)) == stack
  {
    ReduceConcat([], [""] + stack, if trailing then [""] else []);
    ReduceConcat([], [""], stack);
    ReduceNormal([], stack);
    assert [] + stack == stack;
  }

  function Framed(stack: seq<string>, trailing: bool): seq<string> {
    [""] + stack + (if trailing then [""] else [])
  }

  lemma UnframedPieces(pieces: seq<string>, trailing: bool) returns (stack: seq<string>)
    requires |pieces| >= 2 && pieces[0] == "" && (trailing <==> LastOf(pieces) == "")
    requires forall i :: 0 <= i < |pieces| ==> '/' !in pieces[i] && !IsDots(pieces[i])
    requires forall i :: 0 < i < |pieces| - 1 ==> pieces[i] != ""
    ensures NormalStack(stack) && pieces == Framed(stack, trailing)
  {
    stack := if trailing then pieces[1..|pieces| - 1] else pieces[1..];
  }

  lemma FixedPieces(stack: seq<string>, trailing: bool)
    requires NormalStack(stack)
    ensures stack != [] || trailing ==> Rendered(Reduce([], Framed(stack, trailing)), trailing) == Join(Framed(stack, trailing), '/')
  {
    ReduceFramed(stack, trailing);
    RenderedPieces(stack, trailing);
    SplitPieces(Rendered(stack, trailing), '/');
  }

  // ---- remove_dot_segments ----

  function UpToSlash(s: string): (r: string)
    ensures |r| <= |s|
  {
    if s == [] || s[0] == '/' then [] else [s[0]] + UpToSlash(s[1..])
  }

  /** The first segment with its leading slash, if it has one. */
  function FirstSegment(input: string): (r: string)
    requires input != []
    ensures 0 < |r| <= |input|
  {
    if input[0] == '/' then ['/'] + UpToSlash(input[1..]) else [input[0]] + UpToSlash(input[1..])
  }

  /** The output without its last segment and the slash before it. */
  function WithoutLastSegment(output: string): string {
    if output == [] then []
    else if output[|output| - 1] == '/' then output[..|output| - 1]
    else WithoutLastSegment(output[..|output| - 1])
  }

  /** The loop of section 5.2.4, rules A to E in order, on its input and output buffers. */
  function RemoveDotSegments(input: string, output: string): string
    decreases |input|
  {
    if input == [] then output
    else if "../" <= input then RemoveDotSegments(input[3..], output)
    else if "./" <= input then RemoveDotSegments(input[2..], output)
    else if "/./" <= input then RemoveDotSegments(input[2..], output)
    else if input == "/." then RemoveDotSegments("/", output)
    else if "/../" <= input then RemoveDotSegments(input[3..], WithoutLastSegment(output))
    else if input == "/.." then RemoveDotSegments("/", WithoutLastSegment(output))
    else if input == "." || input == ".." then RemoveDotSegments([], output)
    else RemoveDotSegments(input[|FirstSegment(input)|..], output + FirstSegment(input))
  }

  /** The output buffer that holds a stack of segments. */
  function Slashed(stack: seq<string>): string {
    if stack == [] then [] else Slashed(stack[..|stack| - 1]) + "/" + stack[|stack| - 1]
  }

  lemma {:induction false} DropsLastSegment(front: string, last: string)
    requires '/' !in last
    ensures WithoutLastSegment(front + "/" + last) == front
  {
    var output := front + "/" + last;
    if last == [] {
      assert output[..|output| - 1] == front;
    } else {
      assert output[..|output| - 1] == front + "/" + last[..|last| - 1];
      DropsLastSegment(front, last[..|last| - 1]);
    }
  }

  lemma {:induction false} UpToSlashIs(segment: string, rest: string)
    requires '/' !in segment && (rest == [] || rest[0] == '/')
    ensures UpToSlash(segment + rest) == segment
  {
    if segment == [] {
      assert segment + rest == rest;
    } else {
      assert (segment + rest)[1..] == segment[1..] + rest;
      UpToSlashIs(segment[1..], rest);
    }
  }

  lemma RuleE(first: string, rest: string, output: string)
    requires first != [] && first[0] == '/' && FirstSegment(first + rest) == first
    requires var input := first + rest; !("/./" <= input) && input != "/." && !("/../" <= input) && input != "/.."
    ensures RemoveDotSegments(first + rest, output) == RemoveDotSegments(rest, output + first)
  {
    assert (first + rest)[0] == '/' && (first + rest)[|first|..] == rest;
  }

  lemma FirstIs(segment: string, rest: string)
    requires '/' !in segment && (rest == [] || rest[0] == '/')
    ensures FirstSegment("/" + segment + rest) == "/" + segment
  {
    assert ("/" + segment + rest)[1..] == segment + rest;
    UpToSlashIs(segment, rest);
  }

  /** Rule E moves an ordinary leading segment. */
  lemma MovesSegment(segment: string, rest: string, output: string)
    requires '/' !in segment && !IsDots(segment) && (rest == [] || rest[0] == '/')
    ensures RemoveDotSegments("/" + segment + rest, output) == RemoveDotSegments(rest, output + "/" + segment)
  {
    NotADotPrefix(segment, rest);
    FirstIs(segment, rest);
    RuleE("/" + segment, rest, output);
    Regroup(output, "/", segment, []);
  }

  lemma NotADotPrefix(segment: string, rest: string)
    requires '/' !in segment && !IsDots(segment) && (rest == [] || rest[0] == '/')
    ensures var input := "/" + segment + rest;
            !("/./" <= input) && input != "/." && !("/../" <= input) && input != "/.."
  {
    var input := "/" + segment + rest;
    if |segment| == 1 {
      assert input[1] == segment[0] && segment == [segment[0]];
    } else if |segment| == 2 {
      assert input[1] == segment[0] && input[2] == segment[1] && segment == [segment[0], segment[1]];
    } else if |segment| > 2 {
      assert input[2] == segment[1] && input[3] == segment[2];
    } else if rest != [] {
      assert input[1] == '/';
    }
  }

  /** Rule B on a leading dot segment. */
  lemma DropsDot(input: string, rest: string, output: string)
    requires input == "/." + rest && Rooted(rest)
    ensures RemoveDotSegments(input, output) == RemoveDotSegments(rest, output)
  {
    assert input[0] == '/' && input[1] == '.' && input[2] == '/' && input[2..] == rest;
  }

  /** Rule C on a leading double-dot segment. */
  lemma DropsTwoDots(input: string, rest: string, output: string)
    requires input == "/.." + rest && Rooted(rest)
    ensures RemoveDotSegments(input, output) == RemoveDotSegments(rest, WithoutLastSegment(output))
  {
    assert input[0] == '/' && input[1] == '.' && input[2] == '.' && input[3] == '/' && input[3..] == rest;
    assert !("/./" <= input) && input != "/." && "/../" <= input;
  }

  lemma EndsInOneDot(input: string, output: string)
    requires |input| == 2 && input[0] == '/' && input[1] == '.'
    ensures RemoveDotSegments(input, output) == RemoveDotSegments("/", output)
  {
    assert input == "/.";
  }

  lemma EndsInDots(output: string)
    ensures RemoveDotSegments("/", output) == output + "/"
    ensures RemoveDotSegments("/.", output) == output + "/"
    ensures RemoveDotSegments("/..", output) == WithoutLastSegment(output) + "/"
  {
    forall o: string ensures RemoveDotSegments("/", o) == o + "/" {
      assert "/" + "" + "" == "/" && o + "/" + "" == o + "/";
      MovesSegment("", "", o);
    }
    EndsInOneDot("/.", output);
  }

  lemma SlashedPops(stack: seq<string>)
    requires NormalStack(stack)
    ensures WithoutLastSegment(Slashed(stack)) == Slashed(Push(stack, ".."))
  {
    if stack != [] {
      assert NormalSegment(LastOf(stack));
      DropsLastSegment(Slashed(stack[..|stack| - 1]), LastOf(stack));
    }
  }

  /** A segment before others changes the output buffer as it changes the stack. */
  lemma SegmentStep(stack: seq<string>, s: string, tail: string)
    requires NormalStack(stack) && s != "" && '/' !in s && Rooted(tail)
    ensures NormalStack(Push(stack, s))
    ensures RemoveDotSegments("/" + s + tail, Slashed(stack)) == RemoveDotSegments(tail, Slashed(Push(stack, s)))
  {
    SlashedPops(stack);
    if s == "." {
      assert "/" + s + tail == "/." + tail;
      DropsDot("/" + s + tail, tail, Slashed(stack));
    } else if s == ".." {
      assert "/" + s + tail == "/.." + tail;
      DropsTwoDots("/" + s + tail, tail, Slashed(stack));
    } else {
      MovesSegment(s, tail, Slashed(stack));
      assert Push(stack, s)[..|stack|] == stack;
    }
  }

  /** On segments without interior empty ones, the two algorithms keep the same stack. */
  lemma {:induction false} SameStack(stack: seq<string>, segments: seq<string>)
    requires segments != [] && NormalStack(stack) && forall s :: s in segments ==> '/' !in s
    requires forall i :: 0 <= i < |segments| - 1 ==> segments[i] != ""
    ensures RemoveDotSegments("/" + Join(segments, '/'), Slashed(stack))
         == Slashed(Reduce(stack, segments)) + (if LastOf(segments) == "" || IsDots(LastOf(segments)) then "/" else "")
    decreases |segments|
  {
    var s, rest := segments[0], segments[1..];
    assert s in segments;
    if rest == [] {
      assert Join(segments, '/') == s && Reduce(stack, segments) == Push(stack, s);
      LastSegment(stack, s);
    } else {
      var tail := "/" + Join(rest, '/');
      assert "/" + Join(segments, '/') == "/" + s + tail;
      SegmentStep(stack, s, tail);
      SameStack(Push(stack, s), rest);
    }
  }

  lemma LastSegment(stack: seq<string>, s: string)
    requires NormalStack(stack) && '/' !in s
    ensures RemoveDotSegments("/" + s, Slashed(stack)) == Slashed(Push(stack, s)) + (if s == "" || IsDots(s) then "/" else "")
  {
    SlashedPops(stack);
    EndsInDots(Slashed(stack));
    if s == "" {
      assert "/" + s == "/";
    } else if s == "." {
      assert "/" + s == "/.";
    } else if s == ".." {
      assert "/" + s == "/..";
    } else {
      assert "/" + s + "" == "/" + s;
      MovesSegment(s, "", Slashed(stack));
      assert (stack + [s])[..|stack|] == stack;
      assert RemoveDotSegments("", Slashed(stack) + "/" + s) == Slashed(stack + [s]);
    }
  }

  lemma {:induction false} SlashedIsJoin(stack: seq<string>)
    requires stack != []
    ensures Slashed(stack) == "/" + Join(stack, '/')
  {
    if |stack| == 1 {
      assert stack[..0] == [] && Slashed(stack) == "" + "/" + stack[0];
    } else {
      var older := stack[..|stack| - 1];
      SlashedIsJoin(older);
      assert stack == older + [LastOf(stack)];
      JoinSnoc(older, LastOf(stack));
    }
  }

  predicate NoDoubleSlash(s: string) {
    forall i :: 0 <= i < |s| - 1 ==> !(s[i] == '/' && s[i + 1] == '/')
  }

  /** Only the first and the last piece may be empty. */
  ghost predicate InteriorIsFull(pieces: seq<string>) {
    forall i :: 0 < i < |pieces| - 1 ==> |pieces[i]| > 0
  }

  lemma {:induction false} InteriorPieces(s: string)
    requires NoDoubleSlash(s)
    ensures InteriorIsFull(Split(s, '/'))
    ensures s != [] && s[0] != '/' ==> |Split(s, '/')[0]| > 0
  {
    if s != [] {
      InteriorPieces(s[1..]);
      var rest, pieces := Split(s[1..], '/'), Split(s, '/');
      if s[0] == '/' {
        assert forall i :: 0 < i < |pieces| ==> pieces[i] == rest[i - 1];
        assert |rest| > 1 ==> s[1..] != [] && s[1] != '/';
      } else {
        assert |pieces| == |rest| && forall i :: 0 < i < |pieces| ==> pieces[i] == rest[i];
      }
    }
  }

  lemma AbsoluteIsLocal(path: string)
    requires Rooted(path) && NoDoubleSlash(path)
    ensures IsLocal(path) && path == "/" + path[1..]
  {
    assert |path| > 1 && path[0] == '/' ==> path[1] != '/';
  }

  /** The pieces of an absolute path after the empty first one. */
  lemma AbsolutePieces(path: string)
    requires path != [] && path[0] == '/' && NoDoubleSlash(path)
    ensures var segments := Split(path[1..], '/');
            && Split(path, '/') == [""] + segments && Join(segments, '/') == path[1..]
            && (forall s :: s in segments ==> '/' !in s)
            && (forall i :: 0 <= i < |segments| - 1 ==> segments[i] != "")
  {
    var tail := path[1..];
    assert path == [] + ['/'] + tail;
    SplitHead([], '/', tail);
    var segments := Split(tail, '/');
    InteriorPieces(path);
    assert forall i :: 0 <= i < |segments| - 1 ==> segments[i] == Split(path, '/')[i + 1];
    SplitPieces(tail, '/');
  }

  /**
   On absolute paths without a double slash and without a backslash, normalising is
   exactly the remove_dot_segments algorithm.
   */
  lemma NormalizedIsRemoveDotSegments(path: string)
    requires Rooted(path) && NoDoubleSlash(path) && '\\' !in path
    ensures Normalized(path) == Some(RemoveDotSegments(path, ""))
  {
    AbsolutePieces(path);
    SameStack([], Split(path[1..], '/'));
    AbsoluteIsLocal(path);
    NormalizedAbsolute(path);
  }

  lemma NormalizedAbsolute(path: string)
    requires IsLocal(path) && NoDoubleSlash(path) && '\\' !in path
    ensures var segments := Split(path[1..], '/');
            var slash := if LastOf(segments) == "" || IsDots(LastOf(segments)) then "/" else "";
            Normalized(path) == Some(Slashed(Reduce([], segments)) + slash)
  {
    ForwardSlashesIdentity(path);
    AbsolutePieces(path);
    var segments := Split(path[1..], '/');
    assert ([""] + segments)[1..] == segments;
    TrailingIsLastPiece(path);
    assert LastOf([""] + segments) == LastOf(segments);
    RenderedIsSlashed(segments, TrailingSlash(path));
  }

  lemma RenderedIsSlashed(segments: seq<string>, trailing: bool)
    requires segments != [] && forall s :: s in segments ==> '/' !in s
    requires trailing <==> LastOf(segments) == "" || IsDots(LastOf(segments))
    ensures Rendered(Reduce([], segments), trailing) == Slashed(Reduce([], segments)) + (if trailing then "/" else "")
  {
    var stack := Reduce([], segments);
    if stack != [] {
      SlashedIsJoin(stack);
      SlashedNotSlash(segments);
    } else {
      EmptyStackIsTrailing([], segments);
    }
  }

  lemma SlashedNotSlash(segments: seq<string>)
    requires Reduce([], segments) != [] && forall s :: s in segments ==> '/' !in s
    ensures "/" + Join(Reduce([], segments), '/') != "/"
  {
    var stack := Reduce([], segments);
    ReduceIsNormal([], segments);
    assert NormalSegment(stack[0]);
    if |stack| > 1 { assert Join(stack, '/') == stack[0] + ['/'] + Join(stack[1..], '/'); }
  }

  /** Only a trailing empty or dot segment leaves nothing. */
  lemma {:induction false} EmptyStackIsTrailing(stack: seq<string>, segments: seq<string>)
    requires segments != [] && Reduce(stack, segments) == []
    ensures LastOf(segments) == "" || IsDots(LastOf(segments))
    decreases |segments|
  {
    if |segments| > 1 {
      EmptyStackIsTrailing(Push(stack, segments[0]), segments[1..]);
    } else {
      assert Reduce(stack, segments) == Push(stack, segments[0]);
    }
  }

  // ---- empty segments ----

  /** Two slashes in a row count as one, except at the beginning. */
  lemma DoubleSlashIsOne(a: string, b: string)
    requires IsLocal(a) && '\\' !in a && '\\' !in b
    requires a != "/" || !Rooted(b)
    ensures IsLocal(a + "/" + b) ==> Normalized(a + "//" + b) == Normalized(a + "/" + b)
  {
    var one, two := a + "/" + b, a + "//" + b;
    assert two == (a + ['/'] + []) + ['/'] + b && one == a + ['/'] + b;
    if IsLocal(one) {
      ForwardSlashesIdentity(one);
      ForwardSlashesIdentity(two);
      SplitConcat(a, '/', b);
      SplitConcat(a + ['/'] + [], '/', b);
      SplitConcat(a, '/', []);
      var pieces, more := Split(a, '/'), Split(b, '/');
      assert Split([], '/') == [[]];
      assert Split(two, '/') == (pieces + [""]) + more && Split(one, '/') == pieces + more;
      ReduceConcat([], pieces + [""], more);
      ReduceConcat([], pieces, [""]);
      ReduceConcat([], pieces, more);
      assert Reduce(Reduce([], pieces), [""]) == Reduce([], pieces);
      TrailingIsLastPiece(one);
      TrailingIsLastPiece(two);
      assert LastOf(Split(one, '/')) == LastOf(more) == LastOf(Split(two, '/'));
      assert one[0] == a[0] == two[0];
    }
  }
}
