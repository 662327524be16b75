/**
 The sign-in return target: a reference taken from the request is resolved against the
 request's own path, and only a local path that is no account transition is echoed back.
 Texts are UTF-8 bytes. `None` stands for the unsafe-target exception.

 The results say what every target handed out looks like and decodes to, exactly when the
 exception escapes, and that plain local targets come back unchanged. They hold for every
 table of routes that `AreRoutes` accepts, the program's own table among them.
 */
module SafeNext {
  import opened Wrappers
  import opened Text
  import opened Paths
  import opened Percent

  const SAFE_DESTINATION := "/"
  const MAX_LENGTH: nat := 4096

  /** The characters left alone in a path besides letters, digits and `_.-~`. */
  predicate PathSafe(c: char) {
    c == '/' || c == ':' || c == '@' || c == '!' || c == '$' || '&' <= c <= ',' || c == ';' || c == '='
  }

  /** Those left alone in a query and in a fragment. */
  predicate QuerySafe(c: char) {
    c == '%' || c == '?' || PathSafe(c)
  }

  /** What the text library decides: the codec, and a text without surrounding white space. */
  datatype Library = Library(codec: Codec, trimmed: string -> bool)

  datatype Request = Request(isPrivate: bool, next: string, path: string)

  datatype Reference = Reference(path: string, query: string, fragment: string)

  // ---- references ----

  predicate IsSchemeChar(c: char) {
    IsLetter(c) || IsDigit(c) || c == '+' || c == '-' || c == '.'
  }

  predicate SchemeTail(s: string) {
    s != [] && (s[0] == ':' || (IsSchemeChar(s[0]) && SchemeTail(s[1..])))
  }

  /** A letter, then scheme characters up to a colon. */
  predicate HasScheme(s: string) {
    s != [] && IsLetter(s[0]) && SchemeTail(s[1..])
  }

  /** `urlsplit` on a reference without scheme and authority. */
  function SplitReference(s: string): Reference {
    var front := Before(s, '#');
    Reference(Before(front, '?'), After(front, '?'), After(s, '#'))
  }

  function Marked(mark: char, text: string): string {
    if text == [] then [] else [mark] + text
  }

  /** `urlunsplit` without scheme and authority. */
  function Assembled(r: Reference): string {
    var path := if DoublyRooted(r.path) then "//" + r.path else r.path;
    path + (Marked('?', r.query) + Marked('#', r.fragment))
  }

  // ---- resolving ----

  /** Everything before the last slash. */
  function BeforeLastSlash(s: string): (r: string)
    ensures r <= s
  {
    if s == [] then []
    else if s[|s| - 1] == '/' then s[..|s| - 1]
    else BeforeLastSlash(s[..|s| - 1])
  }

  function BaseDirectory(normalized: string): string {
    if EndsInSlash(normalized) then normalized
    else
      var base := BeforeLastSlash(normalized);
      var directory := if base == [] then "/" else base;
      if EndsInSlash(directory) then directory else directory + "/"
  }

  function Combined(normalizedRequest: string, candidate: string): string {
    if Rooted(candidate) then candidate else BaseDirectory(normalizedRequest) + candidate
  }

  /** The decoded candidate resolved against the decoded request path. */
  function Resolved(request: Option<string>, decoded: Option<string>): Option<string> {
    if decoded.None? then None
    else
      var candidate := ForwardSlashes(decoded.value);
      if DoublyRooted(candidate) then None
      else if !Rooted(candidate) && HasScheme(candidate) then None
      else if request.None? || Normalized(request.value).None? then None
      else Normalized(Combined(Normalized(request.value).value, candidate))
  }

  function ResolvePath(codec: Codec, requestPath: string, candidatePath: string): Option<string> {
    Resolved(Decoded(codec, requestPath), Decoded(codec, candidatePath))
  }

  /** The target for a split reference: its path resolved and requoted, query and fragment requoted. */
  function ReferenceTarget(codec: Codec, requestPath: string, r: Reference): Option<string> {
    var path := ResolvePath(codec, requestPath, r.path);
    if path.None? || Decoded(codec, r.query).None? || Decoded(codec, r.fragment).None? then None
    else Some(Assembled(Reference(Quote(path.value, PathSafe), Quote(r.query, QuerySafe), Quote(r.fragment, QuerySafe))))
  }

  function CanonicalTarget(lib: Library, request: Request, candidate: string): Option<string> {
    if candidate == [] || |candidate| > MAX_LENGTH then None
    else if !lib.trimmed(candidate) || lib.codec.control(candidate) then None
    else
      var text := ForwardSlashes(candidate);
      if DoublyRooted(text) || HasScheme(text) then None
      else ReferenceTarget(lib.codec, request.path, SplitReference(text))
  }

  // ---- account transitions ----

  /** The routes that belong to signing in and out. */
  datatype Routes = Routes(exact: seq<string>, prefix: string, suffixes: seq<string>)

  const ACCOUNT_ROUTES := Routes(
    ["/accounts/continue/", "/accounts/login/", "/accounts/logout/", "/auth/logout/"],
    "/accounts/",
    ["/login/", "/callback/"])

  predicate IsTransitionDirectory(routes: Routes, p: string) {
    || (exists i :: 0 <= i < |routes.exact| && p == routes.exact[i])
    || (routes.prefix <= p && exists i :: 0 <= i < |routes.suffixes| && EndsWith(p, routes.suffixes[i]))
  }

  predicate IsTransition(routes: Routes, path: string) {
    IsTransitionDirectory(routes, if EndsInSlash(path) then path else path + "/")
  }

  /** What is done with a canonical target and the request's normalised path. */
  function Chosen(routes: Routes, target: Option<string>, requestPath: Option<string>): Option<string> {
    if target.None? then Some(SAFE_DESTINATION)
    else
      var candidatePath := SplitReference(target.value).path;
      if requestPath.None? then None
      else if IsTransition(routes, candidatePath) then Some(SAFE_DESTINATION)
      else if candidatePath == requestPath.value && IsTransition(routes, requestPath.value) then Some(SAFE_DESTINATION)
      else target
  }

  function Candidate(request: Request): string {
    if request.next == [] then request.path else request.next
  }

  /** The target echoed back; `None` when the exception escapes to the caller. */
  function SafeNextPath(lib: Library, routes: Routes, request: Request): Option<string> {
    if request.isPrivate then Some(SAFE_DESTINATION)
    else Chosen(routes, CanonicalTarget(lib, request, Candidate(request)), Normalized(request.path))
  }

  // ---- what resolving gives ----

  lemma {:induction false} JoinEscape(pieces: seq<string>)
    ensures HasEscape(Join(pieces, '/')) <==> exists i :: 0 <= i < |pieces| && HasEscape(pieces[i])
  {
    if |pieces| == 1 {
      assert HasEscape(pieces[0]) == HasEscape(Join(pieces, '/'));
    } else if |pieces| > 1 {
      var head, tail := pieces[0], pieces[1..];
      JoinEscape(tail);
      ConcatEscape(head, Join(tail, '/'));
      assert Join(pieces, '/') == head + "/" + Join(tail, '/');
      if i :| 0 <= i < |pieces| && HasEscape(pieces[i]) {
        if i > 0 { assert tail[i - 1] == pieces[i]; }
      }
      if i :| 0 <= i < |tail| && HasEscape(tail[i]) { assert pieces[i + 1] == tail[i]; }
    }
  }

  /** No escape straddles a slash. */
  lemma ConcatEscape(a: string, b: string)
    ensures HasEscape(a + "/" + b) <==> HasEscape(a) || HasEscape(b)
  {
    var s := a + "/" + b;
    forall i | 0 <= i < |a| && EscapeAt(a, i) ensures EscapeAt(s, i) {}
    forall i | 0 <= i < |b| && EscapeAt(b, i) ensures EscapeAt(s, i + |a| + 1) {}
    forall i | 0 <= i < |s| && EscapeAt(s, i)
      ensures (i + 2 < |a| && EscapeAt(a, i)) || (i > |a| && EscapeAt(b, i - |a| - 1))
    {
      assert s[|a|] == '/';
    }
  }

  lemma SlashesKeepEscapes(s: string)
    ensures HasEscape(ForwardSlashes(s)) <==> HasEscape(s)
  {
    assert forall i :: 0 <= i < |s| ==> EscapeAt(ForwardSlashes(s), i) == EscapeAt(s, i);
  }

  lemma PrefixEscape(a: string, s: string)
    requires a <= s && HasEscape(a)
    ensures HasEscape(s)
  {
    var i :| 0 <= i < |a| && EscapeAt(a, i);
    assert EscapeAt(s, i);
  }

  /** Normalising makes no new escape. */
  lemma NormalizedEscape(path: string)
    requires Normalized(path).Some? && !HasEscape(path)
    ensures !HasEscape(Normalized(path).value)
  {
    var p := ForwardSlashes(path);
    var stack := NormalStackOf(path);
    SlashesKeepEscapes(path);
    SplitPieces(p, '/');
    JoinEscape(Split(p, '/'));
    ReduceOnlyKeeps([], Split(p, '/'));
    forall i | 0 <= i < |stack| ensures !HasEscape(stack[i]) { assert stack[i] in stack; }
    JoinEscape(stack);
    RenderedEscape(stack, TrailingSlash(p));
  }

  lemma RenderedEscape(stack: seq<string>, trailing: bool)
    requires !HasEscape(Join(stack, '/'))
    ensures !HasEscape(Rendered(stack, trailing))
  {
    var body := Join(stack, '/');
    ConcatEscape([], body);
    assert [] + "/" + body == "/" + body;
    ConcatEscape("/" + body, []);
    assert "/" + body + "/" + [] == "/" + body + "/";
  }

  lemma CombinedEscape(request: string, candidate: string)
    requires !HasEscape(request) && !HasEscape(candidate)
    ensures !HasEscape(Combined(request, candidate))
  {
    if !Rooted(candidate) {
      var base := BaseDirectory(request);
      BaseDirectoryShape(request);
      var front := base[..|base| - 1];
      if HasEscape(front) { PrefixEscape(front, request); }
      ConcatEscape(front, candidate);
    }
  }

  lemma BaseDirectoryShape(path: string)
    ensures var base := BaseDirectory(path); base != [] && base == base[..|base| - 1] + "/" && base[..|base| - 1] <= path
  {
    var base := BeforeLastSlash(path);
    if !EndsInSlash(path) && base != [] {
      assert (base + "/")[..|base|] == base;
      if EndsInSlash(base) { assert base[..|base| - 1] <= path; }
    }
  }

  /** What resolving accepts is normal and holds no escape. */
  lemma ResolvedIsNormal(codec: Codec, requestPath: string, candidatePath: string)
    requires ResolvePath(codec, requestPath, candidatePath).Some?
    ensures var p := ResolvePath(codec, requestPath, candidatePath).value;
            IsNormalPath(p) && !HasEscape(p) && Normalized(p) == Some(p)
  {
    var candidate := ForwardSlashes(Decoded(codec, candidatePath).value);
    DecodedHasNoEscape(codec, candidatePath);
    SlashesKeepEscapes(Decoded(codec, candidatePath).value);
    var request := Decoded(codec, requestPath).value;
    DecodedHasNoEscape(codec, requestPath);
    NormalizedEscape(request);
    var combined := Combined(Normalized(request).value, candidate);
    CombinedEscape(Normalized(request).value, candidate);
    NormalizedEscape(combined);
    NormalizedShape(combined);
    NormalizedIsIdempotent(combined);
  }

  // ---- the assembled target ----

  /** The text before the first `?` or `#`. */
  function PathPart(s: string): string {
    if s == [] || s[0] == '?' || s[0] == '#' then [] else [s[0]] + PathPart(s[1..])
  }

  lemma {:induction false} PathPartIs(path: string, rest: string)
    requires '?' !in path && '#' !in path && (rest == [] || rest[0] == '?' || rest[0] == '#')
    ensures PathPart(path + rest) == path
  {
    if path == [] {
      assert path + rest == rest;
    } else {
      assert (path + rest)[1..] == path[1..] + rest;
      PathPartIs(path[1..], rest);
    }
  }

  lemma {:induction false} BeforeIs(head: string, c: char, rest: string)
    requires c !in head && (rest == [] || rest[0] == c)
    ensures Before(head + rest, c) == head && After(head + rest, c) == if rest == [] then [] else rest[1..]
  {
    if head == [] {
      assert head + rest == rest;
    } else {
      assert (head + rest)[1..] == head[1..] + rest;
      BeforeIs(head[1..], c, rest);
    }
  }

  /** A reference whose parts hold no delimiter of their own is read back from its text. */
  lemma AssembledSplits(r: Reference)
    requires IsLocal(r.path) && '?' !in r.path && '#' !in r.path && '#' !in r.query
    ensures SplitReference(Assembled(r)) == r && PathPart(Assembled(r)) == r.path && r.path <= Assembled(r)
  {
    PathPartIs(r.path, Marked('?', r.query) + Marked('#', r.fragment));
    SplitsTail(r.path, r.query, r.fragment);
  }

  lemma SplitsTail(path: string, query: string, fragment: string)
    requires '?' !in path && '#' !in path && '#' !in query
    ensures SplitReference(path + (Marked('?', query) + Marked('#', fragment))) == Reference(path, query, fragment)
  {
    var front := path + Marked('?', query);
    assert path + (Marked('?', query) + Marked('#', fragment)) == front + Marked('#', fragment);
    BeforeIs(front, '#', Marked('#', fragment));
    BeforeIs(path, '?', Marked('?', query));
  }

  lemma PathHasNoDelimiter(p: string)
    ensures '?' !in Quote(p, PathSafe) && '#' !in Quote(p, PathSafe) && '#' !in Quote(p, QuerySafe)
  {
    QuoteAvoids(p, PathSafe, '?');
    QuoteAvoids(p, PathSafe, '#');
    QuoteAvoids(p, QuerySafe, '#');
  }

  // ---- quoting keeps shape and meaning ----

  function QuoteAll(pieces: seq<string>): (r: seq<string>)
    ensures |r| == |pieces| && forall i :: 0 <= i < |pieces| ==> r[i] == Quote(pieces[i], PathSafe)
  {
    if pieces == [] then [] else [Quote(pieces[0], PathSafe)] + QuoteAll(pieces[1..])
  }

  /** Quoting neither makes nor hides a slash. */
  lemma {:induction false} QuotePieces(s: string)
    ensures Split(Quote(s, PathSafe), '/') == QuoteAll(Split(s, '/'))
  {
    if s != [] {
      var c, tail := s[0], s[1..];
      var q, rest := QuoteByte(c, PathSafe), Quote(tail, PathSafe);
      var pieces := Split(tail, '/');
      QuotePieces(tail);
      if c == '/' {
        assert (q + rest)[1..] == rest;
        assert ([[]] + pieces)[1..] == pieces;
      } else {
        SplitWord(q, rest);
        assert ([c] + pieces[0])[1..] == pieces[0];
        assert ([[c] + pieces[0]] + pieces[1..])[1..] == pieces[1..];
        assert Split(rest, '/')[0] == Quote(pieces[0], PathSafe) && Split(rest, '/')[1..] == QuoteAll(pieces[1..]);
      }
    }
  }

  lemma SplitOne(c: char, rest: string)
    requires c != '/'
    ensures Split([c] + rest, '/') == [[c] + Split(rest, '/')[0]] + Split(rest, '/')[1..]
  {
    assert ([c] + rest)[1..] == rest;
  }

  lemma {:induction false} SplitWord(q: string, rest: string)
    requires q != [] && '/' !in q
    ensures Split(q + rest, '/') == [q + Split(rest, '/')[0]] + Split(rest, '/')[1..]
  {
    var c, tail := q[0], q[1..];
    assert q + rest == [c] + (tail + rest);
    SplitOne(c, tail + rest);
    if tail != [] {
      SplitWord(tail, rest);
      assert [c] + (tail + Split(rest, '/')[0]) == q + Split(rest, '/')[0];
    } else {
      assert tail + rest == rest && [c] == q;
    }
  }

  lemma QuoteOfDots(s: string)
    ensures (Quote(s, PathSafe) == "" <==> s == "") && (IsDots(Quote(s, PathSafe)) <==> IsDots(s))
  {
    if s != [] && !IsSafe(s[0], PathSafe) {
      assert Quote(s, PathSafe)[0] == '%';
    } else if |s| > 1 && !IsSafe(s[1], PathSafe) {
      assert Quote(s, PathSafe) == [s[0]] + (QuoteByte(s[1], PathSafe) + Quote(s[1..][1..], PathSafe));
      assert |Quote(s, PathSafe)| > 3;
    } else if |s| <= 2 {
      QuoteSafe(s, PathSafe);
    } else {
      var tail := Quote(s[1..][1..], PathSafe);
      assert s[1..][1..] != [];
      assert Quote(s, PathSafe) == [s[0]] + ([s[1]] + tail) && |tail| >= 1;
    }
  }

  lemma QuotedRoots(p: string)
    ensures Rooted(Quote(p, PathSafe)) <==> Rooted(p)
    ensures DoublyRooted(Quote(p, PathSafe)) <==> DoublyRooted(p)
  {
    if p != [] && p[0] == '/' {
      assert Quote(p, PathSafe) == ['/'] + Quote(p[1..], PathSafe);
      if |p| > 1 { assert Quote(p[1..], PathSafe)[0] == QuoteByte(p[1], PathSafe)[0]; }
    }
  }

  lemma QuotedIsNormal(p: string)
    requires IsNormalPath(p)
    ensures IsNormalPath(Quote(p, PathSafe))
  {
    QuotePieces(p);
    var pieces, quoted := Split(p, '/'), Split(Quote(p, PathSafe), '/');
    forall i | 0 <= i < |pieces|
      ensures (quoted[i] == "" <==> pieces[i] == "") && (IsDots(quoted[i]) <==> IsDots(pieces[i]))
    {
      QuoteOfDots(pieces[i]);
    }
    QuotedRoots(p);
  }

  /** Routes are plain text, their suffixes start with a slash, and the root is none of them. */
  ghost predicate AreRoutes(routes: Routes) {
    && (forall i :: 0 <= i < |routes.exact| ==> AllSafe(routes.exact[i], PathSafe))
    && AllSafe(routes.prefix, PathSafe)
    && (forall i :: 0 <= i < |routes.suffixes| ==>
          AllSafe(routes.suffixes[i], PathSafe) && routes.suffixes[i] != [] && routes.suffixes[i][0] == '/')
    && !IsTransitionDirectory(routes, "/")
  }

  lemma ExactRoutesAreSafe()
    ensures forall i :: 0 <= i < |ACCOUNT_ROUTES.exact| ==> AllSafe(ACCOUNT_ROUTES.exact[i], PathSafe)
  {
    assert AllSafe("/accounts/continue/", PathSafe);
    assert AllSafe("/accounts/login/", PathSafe);
    assert AllSafe("/accounts/logout/", PathSafe);
    assert AllSafe("/auth/logout/", PathSafe);
  }

  lemma PartialRoutesAreSafe()
    ensures AllSafe(ACCOUNT_ROUTES.prefix, PathSafe)
    ensures forall i :: 0 <= i < |ACCOUNT_ROUTES.suffixes| ==> AllSafe(ACCOUNT_ROUTES.suffixes[i], PathSafe)
  {
    assert AllSafe("/login/", PathSafe);
    assert AllSafe("/callback/", PathSafe);
  }

  lemma AccountRoutesAreRoutes()
    ensures AreRoutes(ACCOUNT_ROUTES)
  {
    ExactRoutesAreSafe();
    PartialRoutesAreSafe();
    assert |ACCOUNT_ROUTES.prefix| > 1;
    assert forall i :: 0 <= i < 4 ==> |ACCOUNT_ROUTES.exact[i]| > 1;
  }

  /** The account-transition check on the quoted path decides about the path itself. */
  lemma TransitionQuoted(routes: Routes, p: string)
    requires IsBytes(p) && AreRoutes(routes)
    ensures IsTransition(routes, Quote(p, PathSafe)) <==> IsTransition(routes, p)
  {
    QuoteSuffix(p, "/", PathSafe);
    EndsInSlashIs(p);
    EndsInSlashIs(Quote(p, PathSafe));
    QuoteConcat(p, "/", PathSafe);
    QuoteSafe("/", PathSafe);
    DirectoryQuoted(routes, if EndsInSlash(p) then p else p + "/");
  }

  lemma EndsInSlashIs(s: string)
    ensures EndsInSlash(s) <==> EndsWith(s, "/")
  {
    if s != [] { assert s[|s| - 1..] == [s[|s| - 1]]; }
  }

  lemma DirectoryQuoted(routes: Routes, p: string)
    requires IsBytes(p) && AreRoutes(routes)
    ensures IsTransitionDirectory(routes, Quote(p, PathSafe)) <==> IsTransitionDirectory(routes, p)
  {
    forall i | 0 <= i < |routes.exact| ensures Quote(p, PathSafe) == routes.exact[i] <==> p == routes.exact[i] {
      QuoteInjective(p, routes.exact[i], PathSafe);
    }
    QuotePrefix(p, routes.prefix, PathSafe);
    forall i | 0 <= i < |routes.suffixes|
      ensures EndsWith(Quote(p, PathSafe), routes.suffixes[i]) <==> EndsWith(p, routes.suffixes[i])
    {
      QuoteSuffix(p, routes.suffixes[i], PathSafe);
    }
  }

  // ---- bytes stay bytes ----

  lemma {:induction false} UnquoteKeepsBytes(s: string)
    requires IsBytes(s)
    ensures IsBytes(Unquote(s))
    decreases |s|
  {
    if s != [] {
      if EscapeAt(s, 0) { UnquoteKeepsBytes(s[3..]); } else { UnquoteKeepsBytes(s[1..]); }
    }
  }

  lemma {:induction false} RoundsKeepBytes(codec: Codec, s: string, rounds: nat)
    requires IsBytes(s) && Rounds(codec, s, rounds).Some?
    ensures IsBytes(Rounds(codec, s, rounds).value)
    decreases rounds
  {
    if HasEscape(s) {
      UnquoteKeepsBytes(s);
      if Unquote(s) != s { RoundsKeepBytes(codec, Unquote(s), rounds - 1); }
    }
  }

  lemma NormalizedAvoids(path: string, c: char)
    requires Normalized(path).Some? && c != '/' && c !in path
    ensures c !in Normalized(path).value
  {
    var p := ForwardSlashes(path);
    var stack := NormalStackOf(path);
    SplitAvoids(p, c);
    ReduceOnlyKeeps([], Split(p, '/'));
    JoinAvoids(stack, c);
  }

  lemma NormalizedKeepsBytes(path: string)
    requires IsBytes(path) && Normalized(path).Some?
    ensures IsBytes(Normalized(path).value)
  {
    var value := Normalized(path).value;
    forall i | 0 <= i < |value| ensures value[i] as int < 256 {
      if value[i] as int >= 256 { NormalizedAvoids(path, value[i]); }
    }
  }

  lemma ResolvedIsBytes(codec: Codec, requestPath: string, candidatePath: string)
    requires IsBytes(requestPath) && IsBytes(candidatePath)
    requires ResolvePath(codec, requestPath, candidatePath).Some?
    ensures IsBytes(ResolvePath(codec, requestPath, candidatePath).value)
  {
    RoundsKeepBytes(codec, candidatePath, MAX_ROUNDS);
    RoundsKeepBytes(codec, requestPath, MAX_ROUNDS);
    var request := Decoded(codec, requestPath).value;
    NormalizedKeepsBytes(request);
    var candidate := ForwardSlashes(Decoded(codec, candidatePath).value);
    CombinedKeepsBytes(Normalized(request).value, candidate);
    NormalizedKeepsBytes(Combined(Normalized(request).value, candidate));
  }

  lemma CombinedKeepsBytes(request: string, candidate: string)
    requires IsBytes(request) && IsBytes(candidate)
    ensures IsBytes(Combined(request, candidate))
  {
    BaseDirectoryShape(request);
  }

  // ---- main results ----

  predicate IsPrintable(s: string) {
    forall i :: 0 <= i < |s| ==> '!' <= s[i] <= '~' && s[i] != '\\'
  }

  /**
   What a browser may be sent to: printable text whose path is normal, and whose path decodes
   in one round to a normal path that further decoding cannot change; neither is a transition.
   */
  ghost predicate IsSafeTarget(routes: Routes, t: string) {
    var part := PathPart(t);
    var path := Unquote(part);
    && IsPrintable(t)
    && IsNormalPath(part) && !IsTransition(routes, part)
    && IsNormalPath(path) && !IsTransition(routes, path) && !HasEscape(path)
  }

  lemma {:induction false} QuoteIsPrintable(s: string, safe: char -> bool)
    requires forall c: char :: safe(c) ==> '!' <= c <= '~' && c != '\\'
    ensures IsPrintable(Quote(s, safe))
  {
    if s != [] {
      QuoteIsPrintable(s[1..], safe);
      assert IsPrintable(QuoteByte(s[0], safe));
    }
  }

  lemma TailIsPrintable(query: string, fragment: string)
    requires IsPrintable(query) && IsPrintable(fragment)
    ensures IsPrintable(Marked('?', query) + Marked('#', fragment))
  {
  }

  function Target(path: string, query: string, fragment: string): string {
    Assembled(Reference(Quote(path, PathSafe), Quote(query, QuerySafe), Quote(fragment, QuerySafe)))
  }

  /** The facts about a target `t` built from the path `p`. */
  ghost predicate LeadsTo(t: string, p: string) {
    && SplitReference(t).path == PathPart(t) == Quote(p, PathSafe) && Unquote(PathPart(t)) == p
    && IsNormalPath(PathPart(t)) && IsPrintable(t)
    && IsBytes(p) && IsNormalPath(p) && !HasEscape(p)
  }

  lemma TargetSplits(path: string, query: string, fragment: string)
    requires IsLocal(Quote(path, PathSafe))
    ensures var t := Target(path, query, fragment);
            SplitReference(t).path == PathPart(t) == Quote(path, PathSafe)
  {
    PathHasNoDelimiter(path);
    PathHasNoDelimiter(query);
    AssembledSplits(Reference(Quote(path, PathSafe), Quote(query, QuerySafe), Quote(fragment, QuerySafe)));
  }

  lemma TargetIsPrintable(path: string, query: string, fragment: string)
    requires IsLocal(Quote(path, PathSafe))
    ensures IsPrintable(Target(path, query, fragment))
  {
    QuoteIsPrintable(path, PathSafe);
    QuoteIsPrintable(query, QuerySafe);
    QuoteIsPrintable(fragment, QuerySafe);
    TailIsPrintable(Quote(query, QuerySafe), Quote(fragment, QuerySafe));
  }

  lemma TargetLeadsTo(path: string, query: string, fragment: string)
    requires IsBytes(path) && IsNormalPath(path) && !HasEscape(path)
    ensures LeadsTo(Target(path, query, fragment), path)
  {
    QuotedIsNormal(path);
    TargetSplits(path, query, fragment);
    TargetIsPrintable(path, query, fragment);
    UnquoteQuote(path, PathSafe);
  }

  lemma ReferenceLeadsTo(codec: Codec, requestPath: string, r: Reference)
    requires IsBytes(requestPath) && IsBytes(r.path) && ReferenceTarget(codec, requestPath, r).Some?
    ensures var path := ResolvePath(codec, requestPath, r.path);
            path.Some? && LeadsTo(ReferenceTarget(codec, requestPath, r).value, path.value)
  {
    ResolvedIsNormal(codec, requestPath, r.path);
    ResolvedIsBytes(codec, requestPath, r.path);
    TargetLeadsTo(ResolvePath(codec, requestPath, r.path).value, r.query, r.fragment);
  }

  lemma ReferenceIsBytes(candidate: string)
    requires IsBytes(candidate)
    ensures IsBytes(SplitReference(ForwardSlashes(candidate)).path)
  {
  }

  lemma CanonicalIsReference(lib: Library, request: Request, candidate: string)
    requires CanonicalTarget(lib, request, candidate).Some?
    ensures CanonicalTarget(lib, request, candidate)
         == ReferenceTarget(lib.codec, request.path, SplitReference(ForwardSlashes(candidate)))
  {
  }

  lemma CanonicalLeadsTo(lib: Library, request: Request, candidate: string)
    requires IsBytes(candidate) && IsBytes(request.path) && CanonicalTarget(lib, request, candidate).Some?
    ensures var r := SplitReference(ForwardSlashes(candidate));
            var path := ResolvePath(lib.codec, request.path, r.path);
            path.Some? && LeadsTo(CanonicalTarget(lib, request, candidate).value, path.value)
  {
    CanonicalIsReference(lib, request, candidate);
    ReferenceIsBytes(candidate);
    ReferenceLeadsTo(lib.codec, request.path, SplitReference(ForwardSlashes(candidate)));
  }

  lemma DestinationIsSafe(routes: Routes)
    requires AreRoutes(routes)
    ensures IsSafeTarget(routes, SAFE_DESTINATION)
  {
    assert PathPart("/") == "/";
    assert Unquote("/") == "/";
    assert "/" == Rendered([], false);
    RenderedPieces([], false);
    assert !EscapeAt("/", 0);
    assert EndsInSlash("/");
  }

  lemma ChosenIsSafe(routes: Routes, t: string, p: string, requestPath: Option<string>)
    requires LeadsTo(t, p) && AreRoutes(routes) && Chosen(routes, Some(t), requestPath).Some?
    ensures IsSafeTarget(routes, Chosen(routes, Some(t), requestPath).value)
  {
    DestinationIsSafe(routes);
    TransitionQuoted(routes, p);
  }

  /** Every target handed out is safe, whatever the request holds. */
  lemma SafeNextIsSafe(lib: Library, routes: Routes, request: Request)
    requires IsBytes(request.next) && IsBytes(request.path) && AreRoutes(routes)
    requires SafeNextPath(lib, routes, request).Some?
    ensures IsSafeTarget(routes, SafeNextPath(lib, routes, request).value)
  {
    var target := CanonicalTarget(lib, request, Candidate(request));
    if request.isPrivate || target.None? {
      DestinationIsSafe(routes);
    } else {
      CanonicalLeadsTo(lib, request, Candidate(request));
      var r := SplitReference(ForwardSlashes(Candidate(request)));
      ChosenIsSafe(routes, target.value, ResolvePath(lib.codec, request.path, r.path).value, Normalized(request.path));
    }
  }

  /** A target that is handed out and is not the fallback decodes to the resolved path. */
  lemma SafeNextLeadsTo(lib: Library, routes: Routes, request: Request)
    requires IsBytes(request.next) && IsBytes(request.path)
    requires SafeNextPath(lib, routes, request).Some? && SafeNextPath(lib, routes, request).value != SAFE_DESTINATION
    ensures var r := SplitReference(ForwardSlashes(Candidate(request)));
            ResolvePath(lib.codec, request.path, r.path) == Some(Unquote(PathPart(SafeNextPath(lib, routes, request).value)))
  {
    CanonicalLeadsTo(lib, request, Candidate(request));
  }

  lemma UnquoteKeepsSlashes(s: string)
    requires DoublyRooted(ForwardSlashes(s))
    ensures DoublyRooted(ForwardSlashes(Unquote(s)))
  {
    assert forall i :: 0 <= i < 2 ==> ForwardSlashes(s)[i] == '/' && s[i] != '%';
    assert Unquote(s[1..]) == [s[1]] + Unquote(s[1..][1..]);
    assert Unquote(s) == [s[0]] + Unquote(s[1..]);
  }

  lemma {:induction false} RoundsKeepSlashes(codec: Codec, s: string, rounds: nat)
    requires DoublyRooted(ForwardSlashes(s)) && Rounds(codec, s, rounds).Some?
    ensures DoublyRooted(ForwardSlashes(Rounds(codec, s, rounds).value))
    decreases rounds
  {
    if HasEscape(s) && Unquote(s) != s {
      UnquoteKeepsSlashes(s);
      RoundsKeepSlashes(codec, Unquote(s), rounds - 1);
    }
  }

  lemma CanonicalHasLocalRequest(lib: Library, request: Request, candidate: string)
    requires CanonicalTarget(lib, request, candidate).Some?
    ensures Decoded(lib.codec, request.path).Some? && IsLocal(ForwardSlashes(Decoded(lib.codec, request.path).value))
  {
  }

  lemma DecodedLocal(codec: Codec, path: string)
    requires Decoded(codec, path).Some? && IsLocal(ForwardSlashes(Decoded(codec, path).value))
    ensures Normalized(path) == None <==> !Rooted(ForwardSlashes(path))
  {
    if DoublyRooted(ForwardSlashes(path)) { RoundsKeepSlashes(codec, path, MAX_ROUNDS); assert false; }
  }

  /**
   The exception escapes exactly when the target itself is acceptable but the request's own
   raw path does not start with a slash, so that only decoding made it an absolute path.
   */
  lemma RaisesIff(lib: Library, routes: Routes, request: Request)
    ensures SafeNextPath(lib, routes, request) == None
            <==> && !request.isPrivate && CanonicalTarget(lib, request, Candidate(request)).Some?
                 && !Rooted(ForwardSlashes(request.path))
  {
    if CanonicalTarget(lib, request, Candidate(request)).Some? {
      CanonicalHasLocalRequest(lib, request, Candidate(request));
      DecodedLocal(lib.codec, request.path);
    }
  }

  /** A server that gives every request a path with a leading slash never sees the exception. */
  lemma AbsoluteRequestNeverRaises(lib: Library, routes: Routes, request: Request)
    requires request.path != [] && request.path[0] == '/'
    ensures SafeNextPath(lib, routes, request).Some?
  {
    RaisesIff(lib, routes, request);
  }

  /** An escaped leading slash is enough to raise. */
  lemma EscapedSlashRaises(lib: Library, routes: Routes)
    requires lib.trimmed("/") && !lib.codec.control("/") && lib.codec.decodes("%2F")
    ensures SafeNextPath(lib, routes, Request(false, "/", "%2F")) == None
  {
    var path := "%2F";
    assert EscapeAt(path, 0) && !IsMalformed(path);
    assert Unquote(path) == "/";
    assert !HasEscape("/") && !IsMalformed("/") && !HasEscape("") && !IsMalformed("");
    assert Decoded(lib.codec, path) == Some("/");
  }

  /** A normal path made of safe characters resolves to itself, whatever the request's path. */
  lemma PlainPathResolves(codec: Codec, requestPath: string, path: string)
    requires IsNormalPath(path) && AllSafe(path, PathSafe)
    requires IsLocal(ForwardSlashes(requestPath)) && '%' !in requestPath
    ensures ResolvePath(codec, requestPath, path) == Some(path)
  {
    WithoutPercent(codec, requestPath);
    WithoutPercent(codec, path);
    ForwardSlashesIdentity(path);
    NormalIsFixed(path);
    NormalResolves(requestPath, path);
  }

  lemma WithoutPercent(codec: Codec, s: string)
    requires '%' !in s
    ensures Decoded(codec, s) == Some(s)
  {
  }

  lemma NormalResolves(request: string, path: string)
    requires Normalized(request).Some? && Normalized(path) == Some(path) && IsLocal(path) && ForwardSlashes(path) == path
    ensures Resolved(Some(request), Some(path)) == Some(path)
  {
  }

  /** A reference without escapes whose path is normal and whose characters are all safe. */
  ghost predicate IsPlain(r: Reference) {
    && IsNormalPath(r.path) && AllSafe(r.path, PathSafe) && AllSafe(r.query, QuerySafe) && AllSafe(r.fragment, QuerySafe)
    && '%' !in r.query && '%' !in r.fragment
  }

  lemma PlainReferenceIsKept(codec: Codec, requestPath: string, r: Reference)
    requires IsPlain(r) && IsLocal(ForwardSlashes(requestPath)) && '%' !in requestPath
    ensures ReferenceTarget(codec, requestPath, r) == Some(Assembled(r))
  {
    PlainPathResolves(codec, requestPath, r.path);
    QuoteSafe(r.path, PathSafe);
    QuoteSafe(r.query, QuerySafe);
    QuoteSafe(r.fragment, QuerySafe);
  }

  lemma PlainSplits(r: Reference)
    requires IsPlain(r)
    ensures var t := Assembled(r);
            && t != [] && t[0] == '/' && !DoublyRooted(t) && ForwardSlashes(t) == t
            && SplitReference(t) == r
  {
    AssembledSplits(r);
    PlainTailIsPlain(r.query, r.fragment);
    PlainText(r);
  }

  lemma PlainIsCanonical(lib: Library, request: Request, r: Reference)
    requires IsPlain(r) && |Assembled(r)| <= MAX_LENGTH
    requires lib.trimmed(Assembled(r)) && !lib.codec.control(Assembled(r))
    requires IsLocal(ForwardSlashes(request.path)) && '%' !in request.path
    ensures CanonicalTarget(lib, request, Assembled(r)) == Some(Assembled(r))
  {
    PlainSplits(r);
    PlainReferenceIsKept(lib.codec, request.path, r);
    CanonicalOfText(lib, request, Assembled(r), r);
  }

  lemma CanonicalOfText(lib: Library, request: Request, t: string, r: Reference)
    requires t != [] && t[0] == '/' && !DoublyRooted(t) && ForwardSlashes(t) == t && |t| <= MAX_LENGTH && SplitReference(t) == r
    requires lib.trimmed(t) && !lib.codec.control(t)
    ensures CanonicalTarget(lib, request, t) == ReferenceTarget(lib.codec, request.path, r)
  {
  }

  lemma ChosenKept(routes: Routes, t: string, requestPath: string)
    ensures Chosen(routes, Some(t), Some(requestPath))
         == Some(if IsTransition(routes, SplitReference(t).path) then SAFE_DESTINATION else t)
  {
  }

  /** A plain local target is handed back unchanged, unless it is an account transition. */
  lemma PlainTargetIsKept(lib: Library, routes: Routes, request: Request, r: Reference)
    requires !request.isPrivate && request.next == Assembled(r) && |request.next| <= MAX_LENGTH && IsPlain(r)
    requires lib.trimmed(request.next) && !lib.codec.control(request.next)
    requires IsLocal(ForwardSlashes(request.path)) && '%' !in request.path
    ensures SafeNextPath(lib, routes, request) == Some(if IsTransition(routes, r.path) then SAFE_DESTINATION else request.next)
  {
    PlainIsCanonical(lib, request, r);
    PlainSplits(r);
    ChosenKept(routes, request.next, Normalized(request.path).value);
  }

  lemma PlainTailIsPlain(query: string, fragment: string)
    requires AllSafe(query, QuerySafe) && AllSafe(fragment, QuerySafe)
    ensures '\\' !in Marked('?', query) + Marked('#', fragment)
  {
  }

  lemma PlainText(r: Reference)
    requires IsLocal(r.path) && AllSafe(r.path, PathSafe)
    requires '\\' !in Marked('?', r.query) + Marked('#', r.fragment)
    ensures var t := Assembled(r); t != [] && t[0] == '/' && !DoublyRooted(t) && ForwardSlashes(t) == t
  {
    ForwardSlashesIdentity(Assembled(r));
  }

  // ---- what is asked of a target ----

  // Stated on the characters of the texts, without the functions of the decision.

  /** The characters that stay as they are in a path, and in a query or fragment. */
  lemma SafeCharacters(c: char)
    ensures PathSafe(c) <==> c in "/:@!$&'()*+,;="
    ensures QuerySafe(c) <==> c in "/:@!$&'()*+,;=?%"
  {
    assert c in "&'()*+," <==> '&' <= c <= ',';
    assert "/:@!$&'()*+,;=" == "/:@!$" + "&'()*+," + ";=";
    assert "/:@!$&'()*+,;=?%" == "/:@!$" + "&'()*+," + ";=" + "?%";
  }

  ghost predicate IsSchemeCharacter(c: char) {
    'a' <= c <= 'z' || 'A' <= c <= 'Z' || '0' <= c <= '9' || c == '+' || c == '-' || c == '.'
  }

  /** A letter, further scheme characters and a colon. */
  ghost predicate StartsWithScheme(s: string) {
    exists k :: && 0 < k < |s| && s[k] == ':' && ('a' <= s[0] <= 'z' || 'A' <= s[0] <= 'Z')
                && forall j :: 0 < j < k ==> IsSchemeCharacter(s[j])
  }

  lemma {:induction false} SchemeTailIff(s: string)
    ensures SchemeTail(s) <==> exists k :: 0 <= k < |s| && s[k] == ':' && forall j :: 0 <= j < k ==> IsSchemeCharacter(s[j])
  {
    if s != [] {
      SchemeTailIff(s[1..]);
      if s[0] != ':' {
        if k :| 0 <= k < |s[1..]| && s[1..][k] == ':' && forall j :: 0 <= j < k ==> IsSchemeCharacter(s[1..][j]) {
          if IsSchemeChar(s[0]) {
            forall j | 0 <= j < k + 1 ensures IsSchemeCharacter(s[j]) { if j > 0 { assert s[j] == s[1..][j - 1]; } }
          }
        }
        if k :| 0 <= k < |s| && s[k] == ':' && forall j :: 0 <= j < k ==> IsSchemeCharacter(s[j]) {
          assert s[1..][k - 1] == ':' && forall j :: 0 <= j < k - 1 ==> s[1..][j] == s[j + 1];
        }
      }
    }
  }

  lemma SchemeIff(s: string)
    ensures HasScheme(s) <==> StartsWithScheme(s)
  {
    if s != [] {
      var tail := s[1..];
      SchemeTailIff(tail);
      assert forall j :: 0 <= j < |tail| ==> tail[j] == s[j + 1];
      if k :| 0 <= k < |tail| && tail[k] == ':' && forall j :: 0 <= j < k ==> IsSchemeCharacter(tail[j]) {
        assert s[k + 1] == ':' && forall j :: 0 < j < k + 1 ==> s[j] == tail[j - 1];
      }
      if k :| && 0 < k < |s| && s[k] == ':' && ('a' <= s[0] <= 'z' || 'A' <= s[0] <= 'Z')
              && forall j :: 0 < j < k ==> IsSchemeCharacter(s[j]) {
        assert tail[k - 1] == ':' && forall j :: 0 <= j < k - 1 ==> tail[j] == s[j + 1];
      }
    }
  }

  /** The directory of a rooted path is the path up to its last slash. */
  ghost predicate IsDirectoryOf(directory: string, path: string) {
    EndsWith(directory, "/") && exists name :: '/' !in name && path == directory + name
  }

  lemma {:induction false} BeforeLastSlashIs(s: string) returns (name: string)
    requires '/' in s
    ensures '/' !in name && s == BeforeLastSlash(s) + "/" + name
  {
    var n := |s| - 1;
    if s[n] == '/' {
      name := [];
      assert s == s[..n] + "/" + [];
    } else {
      assert s == s[..n] + [s[n]] && '/' in s[..n];
      name := BeforeLastSlashIs(s[..n]);
      assert s == BeforeLastSlash(s) + "/" + (name + [s[n]]);
      name := name + [s[n]];
    }
  }

  /** What stands before the last slash of a normal path ends with no slash. */
  lemma BaseIsBare(base: string, name: string)
    requires base != [] && '/' !in name && IsNormalPath(base + "/" + name)
    ensures !EndsInSlash(base)
  {
    var pieces := Split(base, '/');
    SplitConcat(base, '/', name);
    SplitNone(name, '/');
    assert Split(base + "/" + name, '/') == pieces + [name];
    assert (pieces + [name])[|pieces| - 1] == pieces[|pieces| - 1];
    SlashAtEnd(base);
  }

  lemma SlashAtEnd(s: string)
    ensures EndsInSlash(s) ==> |Split(s, '/')| >= 2 && LastOf(Split(s, '/')) == ""
  {
    if EndsInSlash(s) {
      var front := s[..|s| - 1];
      assert s == front + "/" + "";
      SplitConcat(front, '/', "");
      assert Split("", '/') == [""];
    }
  }

  lemma DirectoryIs(path: string)
    requires IsNormalPath(path)
    ensures IsDirectoryOf(BaseDirectory(path), path)
  {
    EndsInSlashIs(path);
    if EndsInSlash(path) {
      assert path == path + [];
    } else {
      var name := BeforeLastSlashIs(path);
      var base := BeforeLastSlash(path);
      assert path == (base + "/") + name;
      EndsWithOne(base + "/", '/');
      if base == [] {
        assert BaseDirectory(path) == "/" && [] + "/" == "/";
      } else {
        BaseIsBare(base, name);
        assert BaseDirectory(path) == base + "/";
      }
    }
  }

  /** A path is resolved as it stands when it is rooted, and otherwise against the directory of the request. */
  lemma ResolvedMeans(request: Option<string>, candidate: string, path: string)
    ensures Resolved(request, Some(candidate)) == Some(path)
       <==> var c := ForwardSlashes(candidate);
            && !("//" <= c) && request.Some?
            && if "/" <= c then Normalized(request.value).Some? && Normalized(c) == Some(path)
               else !StartsWithScheme(c) && exists n, directory :: Normalized(request.value) == Some(n) && IsDirectoryOf(directory, n)
                                                                  && Normalized(directory + c) == Some(path)
    ensures Resolved(request, None) == None
  {
    var c := ForwardSlashes(candidate);
    SchemeIff(c);
    assert DoublyRooted(c) <==> "//" <= c;
    assert Rooted(c) <==> "/" <= c;
    if request.Some? && Normalized(request.value).Some? {
      var n := Normalized(request.value).value;
      NormalizedShape(request.value);
      DirectoryIs(n);
      forall directory | IsDirectoryOf(directory, n) ensures directory == BaseDirectory(n) { OneDirectory(n, directory, BaseDirectory(n)); }
    }
  }

  lemma OneDirectory(path: string, a: string, b: string)
    requires IsDirectoryOf(a, path) && IsDirectoryOf(b, path)
    ensures a == b
  {
    var x :| '/' !in x && path == a + x;
    var y :| '/' !in y && path == b + y;
    EndsWithOne(a, '/');
    EndsWithOne(b, '/');
    assert forall i :: |a| <= i < |path| ==> path[i] == x[i - |a|];
    assert forall i :: |b| <= i < |path| ==> path[i] == y[i - |b|];
    assert path[|a| - 1] == '/' == path[|b| - 1];
    assert |a| == |b| && path[..|a|] == a && path[..|b|] == b;
  }

  /** A path, then a query after a question mark, then a fragment after a hash. */
  lemma SplitMeans(s: string)
    ensures var r := SplitReference(s);
            && '?' !in r.path && '#' !in r.path && '#' !in r.query
            && exists query, fragment :: && s == r.path + query + fragment
                                         && (query == "?" + r.query || (query == "" && r.query == ""))
                                         && (fragment == "#" + r.fragment || (fragment == "" && r.fragment == ""))
  {
    var fragment := Cut(s, '#');
    var query := Cut(Before(s, '#'), '?');
  }

  /** What comes from the first `c` on. */
  lemma Cut(s: string, c: char) returns (rest: string)
    ensures s == Before(s, c) + rest && c !in Before(s, c)
    ensures rest == [c] + After(s, c) || (rest == "" && After(s, c) == "")
  {
    var n := |Before(s, c)|;
    rest := s[n..];
    if n < |s| { assert rest == [s[n]] + s[n + 1..]; }
  }

  /** The resolved path of the reference with its query and fragment, requoted; all three decode. */
  ghost predicate IsTargetOf(codec: Codec, requestPath: string, r: Reference, target: string) {
    && Decoded(codec, r.query).Some? && Decoded(codec, r.fragment).Some?
    && exists path, query, fragment ::
         && ResolvePath(codec, requestPath, r.path) == Some(path)
         && IsQuoted("?", r.query, query) && IsQuoted("#", r.fragment, fragment)
         && target == Quote(path, PathSafe) + (query + fragment)
  }

  ghost predicate IsQuoted(mark: string, text: string, quoted: string) {
    if text == "" then quoted == "" else quoted == mark + Quote(text, QuerySafe)
  }

  /**
   A reference is accepted when it is not empty, not too long, without surrounding white space and control characters,
   names no host and no scheme, and its parts decode; the target is its resolved path with its query and fragment, requoted.
   */
  lemma CanonicalIff(lib: Library, request: Request, candidate: string, target: string)
    ensures CanonicalTarget(lib, request, candidate) == Some(target)
       <==> var text := ForwardSlashes(candidate); var r := SplitReference(text);
            && 0 < |candidate| <= 4096 && lib.trimmed(candidate) && !lib.codec.control(candidate)
            && !("//" <= text) && !StartsWithScheme(text)
            && IsTargetOf(lib.codec, request.path, r, target)
  {
    hide IsTargetOf;
    var text := ForwardSlashes(candidate);
    var r := SplitReference(text);
    SchemeIff(text);
    assert DoublyRooted(text) <==> "//" <= text;
    ReferenceIff(lib.codec, request.path, r, target);
  }

  lemma ReferenceIff(codec: Codec, requestPath: string, r: Reference, target: string)
    ensures ReferenceTarget(codec, requestPath, r) == Some(target) <==> IsTargetOf(codec, requestPath, r, target)
  {
    if ResolvePath(codec, requestPath, r.path).Some? { ResolvedReference(codec, requestPath, r, target); }
  }

  lemma ResolvedReference(codec: Codec, requestPath: string, r: Reference, target: string)
    requires ResolvePath(codec, requestPath, r.path).Some?
    ensures ReferenceTarget(codec, requestPath, r) == Some(target) <==> IsTargetOf(codec, requestPath, r, target)
  {
    var path := ResolvePath(codec, requestPath, r.path).value;
    ResolvedIsLocal(codec, requestPath, r.path);
    QuotedIsEmpty(r.query);
    QuotedIsEmpty(r.fragment);
    assert IsQuoted("?", r.query, Marked('?', Quote(r.query, QuerySafe)));
    assert IsQuoted("#", r.fragment, Marked('#', Quote(r.fragment, QuerySafe)));
  }

  lemma QuotedIsEmpty(s: string)
    ensures Quote(s, QuerySafe) == [] <==> s == []
  {
    QuoteIsLonger(s, QuerySafe);
  }

  lemma ResolvedIsLocal(codec: Codec, requestPath: string, candidatePath: string)
    requires ResolvePath(codec, requestPath, candidatePath).Some?
    ensures !DoublyRooted(Quote(ResolvePath(codec, requestPath, candidatePath).value, PathSafe))
  {
    ResolvedIsNormal(codec, requestPath, candidatePath);
    QuotedRoots(ResolvePath(codec, requestPath, candidatePath).value);
  }

  /** One of the listed paths, or one with the prefix and one of the suffixes. */
  ghost predicate IsRoute(routes: Routes, p: string) {
    || p in routes.exact
    || exists suffix, front, rest :: suffix in routes.suffixes && p == front + suffix && p == routes.prefix + rest
  }

  lemma RouteIff(routes: Routes, p: string)
    ensures IsTransitionDirectory(routes, p) <==> IsRoute(routes, p)
  {
    if i :| 0 <= i < |routes.suffixes| && EndsWith(p, routes.suffixes[i]) && routes.prefix <= p {
      var x := routes.suffixes[i];
      assert x in routes.suffixes && p == p[..|p| - |x|] + x && p == routes.prefix + p[|routes.prefix|..];
    }
    if suffix, front, rest :| suffix in routes.suffixes && p == front + suffix && p == routes.prefix + rest {
      var i :| 0 <= i < |routes.suffixes| && routes.suffixes[i] == suffix;
      assert p[|p| - |suffix|..] == suffix && p[..|routes.prefix|] == routes.prefix;
    }
  }

  /** Which paths belong to signing in and out. */
  lemma TransitionIff(routes: Routes, path: string)
    ensures IsTransition(routes, path) <==> IsRoute(routes, if EndsWith(path, "/") then path else path + "/")
  {
    EndsInSlashIs(path);
    RouteIff(routes, if EndsInSlash(path) then path else path + "/");
  }

  /** A private request and an unacceptable target get the safe destination, and so does a target that is a transition. */
  lemma SafeNextMeans(lib: Library, routes: Routes, request: Request)
    ensures SafeNextPath(lib, routes, request) ==
              var target := CanonicalTarget(lib, request, if |request.next| > 0 then request.next else request.path);
              if request.isPrivate || target == None then Some("/")
              else if Normalized(request.path) == None then None
              else if IsTransition(routes, SplitReference(target.value).path) then Some("/")
              else target
  {
  }
}
