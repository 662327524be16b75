/**
 Rewriting the inline links of a documentation page: a hand-written scan over the
 Markdown text that replaces whole links and leaves everything else as it is.
 */
module DocsLinks {
  import opened Wrappers
  import opened Scanning
  import opened Text
  import opened Words

  const DESTINATION := Brackets(Some('('), ')')
  const ANGLE := Brackets(None, '>')

  // A link with this address and label becomes one with that address and label.
  datatype LabelRule = LabelRule(url: string, caption: string, newUrl: string, newCaption: string)

  const EVENTS_RULE := LabelRule("https://luma.com/dtc-events", "Luma", "/events", "our events page")

  // Which addresses the URL library splits into parts and which make it raise; where links lead: the
  // address inside the site, the community workspace, the newsletter, and the events page; and what
  // counts as white space.
  datatype Policy = Policy(splits: string -> bool, internal: string -> Option<string>, community: string -> Option<string>,
                           newsletter: string -> bool, events: LabelRule, isSpace: char -> bool)

  // ---- the destination token ----

  datatype Token = Token(start: nat, end: nat)

  function SkipSpaces(isSpace: char -> bool, s: string, i: nat): (r: nat)
    requires i <= |s|
    ensures i <= r <= |s| && (forall k :: i <= k < r ==> isSpace(s[k])) && (r < |s| ==> !isSpace(s[r]))
    decreases |s| - i
  {
    if i == |s| || !isSpace(s[i]) then i else SkipSpaces(isSpace, s, i + 1)
  }

  function TokenOf(isSpace: char -> bool, inner: string): (r: Option<Token>)
    ensures r.Some? ==> r.value.start <= r.value.end <= |inner|
  {
    var start := SkipSpaces(isSpace, inner, 0);
    if start == |inner| then None
    else if inner[start] == '<' then
      var end := Closing(ANGLE, inner, start + 1, 0);
      if end.None? then None else Some(Token(start + 1, end.value))
    else Some(Token(start, WordEnd(isSpace, inner, start)))
  }

  method LinkDestinationToken(isSpace: char -> bool, inner: string) returns (r: Option<Token>)
    ensures r == TokenOf(isSpace, inner)
  {
    var start := 0;
    while start < |inner| && isSpace(inner[start])
      invariant 0 <= start <= |inner| && SkipSpaces(isSpace, inner, start) == SkipSpaces(isSpace, inner, 0)
    {
      start := start + 1;
    }
    if start == |inner| {
      return None;
    }
    if inner[start] == '<' {
      var end := FindClosing(ANGLE, inner, start + 1);
      if end.None? {
        return None;
      }
      return Some(Token(start + 1, end.value));
    }
    var end := start;
    while end < |inner| && !isSpace(inner[end])
      invariant start <= end <= |inner| && WordEnd(isSpace, inner, end) == WordEnd(isSpace, inner, start)
    {
      end := end + 1;
    }
    return Some(Token(start, end));
  }

  ghost predicate AllSpace(isSpace: char -> bool, s: string) {
    forall k :: 0 <= k < |s| ==> isSpace(s[k])
  }

  ghost predicate IsAngleToken(isSpace: char -> bool, inner: string, t: Token) {
    && 0 < t.start <= t.end < |inner| && AllSpace(isSpace, inner[..t.start - 1])
    && inner[t.start - 1] == '<' && !isSpace('<') && Closes(Brackets(None, '>'), inner, t.start, t.end)
  }

  ghost predicate IsBareToken(isSpace: char -> bool, inner: string, t: Token) {
    && t.start < t.end <= |inner| && AllSpace(isSpace, inner[..t.start]) && inner[t.start] != '<'
    && (forall k :: t.start <= k < t.end ==> !isSpace(inner[k])) && (t.end < |inner| ==> isSpace(inner[t.end]))
  }

  /** The token is the text between angle brackets, or the first word. */
  lemma TokenIff(isSpace: char -> bool, inner: string, t: Token)
    ensures TokenOf(isSpace, inner) == Some(t) <==> IsAngleToken(isSpace, inner, t) || IsBareToken(isSpace, inner, t)
  {
    var start := SkipSpaces(isSpace, inner, 0);
    if start < |inner| && inner[start] == '<' { ClosingIff(ANGLE, inner, start + 1, t.end); }
    if IsAngleToken(isSpace, inner, t) {
      assert forall k :: 0 <= k < t.start - 1 ==> isSpace(inner[k]) by {
        forall k | 0 <= k < t.start - 1 ensures isSpace(inner[k]) { assert inner[..t.start - 1][k] == inner[k]; }
      }
      assert start == t.start - 1;
    }
    if IsBareToken(isSpace, inner, t) {
      assert forall k :: 0 <= k < t.start ==> isSpace(inner[k]) by {
        forall k | 0 <= k < t.start ensures isSpace(inner[k]) { assert inner[..t.start][k] == inner[k]; }
      }
      assert start == t.start;
    }
  }

  // ---- the replacement of one link ----

  function NewUrl(p: Policy, caption: string, destination: string): Option<string> {
    if IsEventsLink(p, caption, destination) then Some(p.events.newUrl)
    else if p.internal(destination).Some? then p.internal(destination)
    else p.community(destination)
  }

  predicate IsEventsLink(p: Policy, caption: string, destination: string) {
    destination == p.events.url && caption == p.events.caption
  }

  // What a link becomes: its bare label, or a link whose contents are put together from three pieces.
  datatype Replacement = Bare(caption: string) | Linked(caption: string, before: string, target: string, after: string)

  function TextOf(r: Replacement): string {
    match r
    case Bare(caption) => caption
    case Linked(caption, before, target, after) => LinkText(caption, before + target + after)
  }

  function LinkText(caption: string, inner: string): string {
    "[" + caption + "](" + inner + ")"
  }

  /** The link with the destination token of its contents replaced. */
  function Retargeted(caption: string, inner: string, t: Token, url: string): Replacement
    requires t.start <= t.end <= |inner|
  {
    if t.start > 0 && inner[t.start - 1] == '<' && t.end < |inner|
    then Linked(caption, inner[..t.start - 1], "<" + url + ">", inner[t.end + 1..])
    else Linked(caption, inner[..t.start], url, inner[t.end..])
  }

  /** What becomes of a link; the library can raise on its address, and then so does the rewriting. */
  datatype Fate = Stays | Raises | Becomes(link: Replacement)

  /** What becomes of the link `[label](inner)`. */
  function FateOf(p: Policy, caption: string, inner: string): Fate {
    var token := TokenOf(p.isSpace, inner);
    if token.None? then Stays
    else
      var destination := inner[token.value.start..token.value.end];
      var url := NewUrl(p, caption, destination);
      if !p.splits(destination) then Raises
      else if p.newsletter(destination) then Becomes(Bare(caption))
      else if url.None? then Stays
      else
        var newCaption := if IsEventsLink(p, caption, destination) then p.events.newCaption else caption;
        Becomes(Retargeted(newCaption, inner, token.value, url.value))
  }

  /** The angle bracket does not count as white space. */
  ghost predicate IsPolicy(p: Policy) {
    !p.isSpace('<')
  }

  /** A token after an angle bracket is closed by one. */
  lemma AngleIsClosed(isSpace: char -> bool, inner: string)
    requires TokenOf(isSpace, inner).Some? && !isSpace('<')
    ensures var t := TokenOf(isSpace, inner).value;
            t.start > 0 && inner[t.start - 1] == '<' ==> t.end < |inner| && inner[t.end] == '>'
  {
    var t := TokenOf(isSpace, inner).value;
    TokenIff(isSpace, inner, t);
    if IsBareToken(isSpace, inner, t) && t.start > 0 { assert inner[..t.start][t.start - 1] == inner[t.start - 1]; }
  }

  lemma AngleStays(inner: string, t: Token, url: string)
    requires 0 < t.start <= t.end < |inner| && inner[t.start - 1] == '<' && inner[t.end] == '>'
    ensures inner[..t.start - 1] + ("<" + url + ">") + inner[t.end + 1..] == inner[..t.start] + url + inner[t.end..]
  {
    assert inner[..t.start] == inner[..t.start - 1] + "<";
    assert inner[t.end..] == ">" + inner[t.end + 1..];
  }

  /** Only the token changes; angle brackets around it stay. */
  lemma OnlyTheTokenChanges(isSpace: char -> bool, caption: string, inner: string, url: string)
    requires TokenOf(isSpace, inner).Some? && !isSpace('<')
    ensures var t := TokenOf(isSpace, inner).value;
            TextOf(Retargeted(caption, inner, t, url)) == LinkText(caption, inner[..t.start] + url + inner[t.end..])
  {
    var t := TokenOf(isSpace, inner).value;
    AngleIsClosed(isSpace, inner);
    if t.start > 0 && inner[t.start - 1] == '<' { AngleStays(inner, t, url); }
  }

  type Rewriter = (string, string) -> Fate

  function Rewriting(p: Policy): Rewriter {
    (caption: string, inner: string) => FateOf(p, caption, inner)
  }

  lemma RewritingIs(p: Policy, caption: string, inner: string)
    ensures Rewriting(p)(caption, inner) == FateOf(p, caption, inner)
  {
  }

  // ---- tiles ----

  datatype Link = Link(labelEnd: nat, end: nat)

  datatype Kind = Plain | Code | Kept | Refused | Rewritten(text: string)

  /** A stretch of the text, and what becomes of it. */
  datatype Tile = Tile(start: nat, end: nat, kind: Kind)

  function CodeEnd(s: string, i: nat): (r: nat)
    requires i < |s| && s[i] == '`'
    ensures i < r <= |s|
  {
    var runEnd := RunEnd(s, i, '`');
    var closing := FindFrom(s, s[i..runEnd], runEnd);
    if closing.None? then |s| else closing.value + runEnd - i
  }

  /** The link that starts at `i`: the end of its label and its own end. */
  function LinkAt(s: string, i: nat): (r: Option<Link>)
    requires i < |s|
    ensures r.Some? ==> LiesIn(r.value, s, i)
  {
    if s[i] != '[' || (i > 0 && (s[i - 1] == '\\' || s[i - 1] == '!')) then None
    else
      var labelEnd := Closing(LABEL, s, i + 1, 0);
      if labelEnd.None? || labelEnd.value + 1 >= |s| || s[labelEnd.value + 1] != '(' then None
      else
        var end := Closing(DESTINATION, s, labelEnd.value + 2, 0);
        if end.None? then None else Some(Link(labelEnd.value, end.value))
  }

  predicate LiesIn(link: Link, s: string, i: nat) {
    i < link.labelEnd && link.labelEnd + 2 <= link.end < |s|
  }

  function FateIn(rewrite: Rewriter, s: string, i: nat, link: Link): Fate
    requires LiesIn(link, s, i)
  {
    rewrite(s[i + 1..link.labelEnd], s[link.labelEnd + 2..link.end])
  }

  function KindOf(fate: Fate): Kind {
    match fate
    case Stays => Kept
    case Raises => Refused
    case Becomes(link) => Rewritten(TextOf(link))
  }

  function TileAt(rewrite: Rewriter, s: string, i: nat): (t: Tile)
    requires i < |s|
    ensures t.start == i < t.end <= |s|
  {
    if s[i] == '`' then Tile(i, CodeEnd(s, i), Code)
    else
      var link := LinkAt(s, i);
      if link.None? then Tile(i, i + 1, Plain) else Tile(i, link.value.end + 1, KindOf(FateIn(rewrite, s, i, link.value)))
  }

  function Tiles(rewrite: Rewriter, s: string, i: nat): seq<Tile>
    requires i <= |s|
    decreases |s| - i
  {
    if i == |s| then [] else [TileAt(rewrite, s, i)] + Tiles(rewrite, s, TileAt(rewrite, s, i).end)
  }

  function TileText(s: string, t: Tile): string {
    if t.kind.Rewritten? then t.kind.text
    else if t.start <= t.end <= |s| then s[t.start..t.end] else []
  }

  function Rendered(s: string, tiles: seq<Tile>): string {
    if tiles == [] then [] else TileText(s, tiles[0]) + Rendered(s, tiles[1..])
  }

  lemma TilesStep(rewrite: Rewriter, s: string, i: nat)
    requires i < |s|
    ensures Rendered(s, Tiles(rewrite, s, i)) == TileText(s, TileAt(rewrite, s, i)) + Rendered(s, Tiles(rewrite, s, TileAt(rewrite, s, i).end))
  {
    assert Tiles(rewrite, s, i)[1..] == Tiles(rewrite, s, TileAt(rewrite, s, i).end);
  }

  /** What the output becomes: the part written, the part to be copied, and the rest rendered. */
  ghost function Outlook(rewrite: Rewriter, s: string, done: string, cursor: nat, i: nat): string
    requires cursor <= i <= |s|
  {
    done + s[cursor..i] + Rendered(s, Tiles(rewrite, s, i))
  }

  lemma KeptText(rewrite: Rewriter, s: string, i: nat)
    requires i < |s| && !TileAt(rewrite, s, i).kind.Rewritten?
    ensures TileText(s, TileAt(rewrite, s, i)) == s[i..TileAt(rewrite, s, i).end]
  {
  }

  lemma PendingGrows(s: string, done: string, cursor: nat, i: nat, end: nat, rest: string)
    requires cursor <= i <= end <= |s|
    ensures done + s[cursor..i] + (s[i..end] + rest) == done + s[cursor..end] + rest
  {
    Regroup(done, s[cursor..i], s[i..end], rest);
    assert s[cursor..i] + s[i..end] == s[cursor..end];
  }

  lemma StaysPending(rewrite: Rewriter, s: string, done: string, cursor: nat, i: nat)
    requires cursor <= i < |s| && !TileAt(rewrite, s, i).kind.Rewritten?
    ensures Outlook(rewrite, s, done, cursor, TileAt(rewrite, s, i).end) == Outlook(rewrite, s, done, cursor, i)
  {
    var end := TileAt(rewrite, s, i).end;
    TilesStep(rewrite, s, i);
    KeptText(rewrite, s, i);
    PendingGrows(s, done, cursor, i, end, Rendered(s, Tiles(rewrite, s, end)));
  }

  lemma IsFlushed(rewrite: Rewriter, s: string, done: string, cursor: nat, i: nat)
    requires cursor <= i < |s| && TileAt(rewrite, s, i).kind.Rewritten?
    ensures var t := TileAt(rewrite, s, i);
            Outlook(rewrite, s, done + s[cursor..i] + t.kind.text, t.end, t.end) == Outlook(rewrite, s, done, cursor, i)
  {
    var t := TileAt(rewrite, s, i);
    TilesStep(rewrite, s, i);
    Regroup(done, s[cursor..i], t.kind.text, Rendered(s, Tiles(rewrite, s, t.end)));
    assert s[t.end..t.end] == [];
    assert done + s[cursor..i] + t.kind.text + [] == done + s[cursor..i] + t.kind.text;
  }

  lemma OutlookAtStart(rewrite: Rewriter, s: string)
    ensures Outlook(rewrite, s, [], 0, 0) == Rendered(s, Tiles(rewrite, s, 0))
  {
    assert s[0..0] == [];
  }

  lemma OutlookAtEnd(rewrite: Rewriter, s: string, done: string, cursor: nat)
    requires cursor <= |s|
    ensures Outlook(rewrite, s, done, cursor, |s|) == done + s[cursor..]
  {
    assert s[cursor..|s|] == s[cursor..];
  }

  /** Skipping a run of backticks and the text up to the same run again. */
  method SkipCode(value: string, index: nat) returns (end: nat)
    requires index < |value| && value[index] == '`'
    ensures end == CodeEnd(value, index)
  {
    var runEnd := index;
    while runEnd < |value| && value[runEnd] == '`'
      invariant index <= runEnd <= |value| && RunEnd(value, runEnd, '`') == RunEnd(value, index, '`')
    {
      runEnd := runEnd + 1;
    }
    var closing := FindFrom(value, value[index..runEnd], runEnd);
    return if closing.None? then |value| else closing.value + runEnd - index;
  }

  method FindLink(value: string, index: nat) returns (r: Option<Link>)
    requires index < |value|
    ensures r == LinkAt(value, index)
  {
    if value[index] != '[' || (index > 0 && (value[index - 1] == '\\' || value[index - 1] == '!')) {
      return None;
    }
    var labelEnd := FindClosing(LABEL, value, index + 1);
    if labelEnd.None? || labelEnd.value + 1 >= |value| || value[labelEnd.value + 1] != '(' {
      return None;
    }
    var end := FindClosing(DESTINATION, value, labelEnd.value + 2);
    return if end.None? then None else Some(Link(labelEnd.value, end.value));
  }

  /** What the loop finds at `index`. */
  method NextTile(p: Policy, value: string, index: nat) returns (t: Tile)
    requires IsPolicy(p) && index < |value|
    ensures t == TileAt(Rewriting(p), value, index)
  {
    if value[index] == '`' {
      var end := SkipCode(value, index);
      return Tile(index, end, Code);
    }
    var link := FindLink(value, index);
    if link.None? {
      return Tile(index, index + 1, Plain);
    }
    var fate := RewriteFound(p, value, index, link.value);
    return Tile(index, link.value.end + 1, KindOf(fate));
  }

  method RewriteFound(p: Policy, value: string, index: nat, link: Link) returns (r: Fate)
    requires IsPolicy(p) && LiesIn(link, value, index)
    ensures r == FateIn(Rewriting(p), value, index, link)
  {
    r := RewriteLink(p, value[index + 1..link.labelEnd], value[link.labelEnd + 2..link.end]);
  }

  ghost predicate HasRefused(tiles: seq<Tile>) {
    exists t :: t in tiles && t.kind == Refused
  }

  lemma RefusedStep(rewrite: Rewriter, s: string, i: nat)
    requires i < |s|
    ensures HasRefused(Tiles(rewrite, s, i))
        <==> TileAt(rewrite, s, i).kind == Refused || HasRefused(Tiles(rewrite, s, TileAt(rewrite, s, i).end))
  {
    var first, rest := TileAt(rewrite, s, i), Tiles(rewrite, s, TileAt(rewrite, s, i).end);
    assert Tiles(rewrite, s, i) == [first] + rest;
    assert first in Tiles(rewrite, s, i);
  }

  /** The text with its links rewritten, or nothing when the library raises on the address of one of them. */
  method RewriteMarkdownLinks(p: Policy, value: string) returns (r: Option<string>)
    requires IsPolicy(p)
    ensures var tiles := Tiles(Rewriting(p), value, 0);
            r == if HasRefused(tiles) then None else Some(Rendered(value, tiles))
    ensures r.Some? ==> exists tiles :: IsOutput(p, value, tiles, r.value) && !HasRefused(tiles)
    ensures r.None? ==> exists start, end :: IsTile(p, value, start, end, Refused)
  {
    TilesMean(p, value);
    TilesCover(Rewriting(p), value, 0);
    OutputIsSplice(Rewriting(p), value, 0);
    assert IsOutput(p, value, Tiles(Rewriting(p), value, 0), Rendered(value, Tiles(Rewriting(p), value, 0)));
    var output: string := [];
    var cursor: nat, index: nat := 0, 0;
    OutlookAtStart(Rewriting(p), value);
    while index < |value|
      invariant cursor <= index <= |value|
      invariant Outlook(Rewriting(p), value, output, cursor, index) == Rendered(value, Tiles(Rewriting(p), value, 0))
      invariant HasRefused(Tiles(Rewriting(p), value, index)) == HasRefused(Tiles(Rewriting(p), value, 0))
      decreases |value| - index
    {
      var tile := NextTile(p, value, index);
      RefusedStep(Rewriting(p), value, index);
      if tile.kind.Refused? {
        return None;
      }
      if tile.kind.Rewritten? {
        IsFlushed(Rewriting(p), value, output, cursor, index);
        output := output + value[cursor..index] + tile.kind.text;
        cursor := tile.end;
        index := cursor;
      } else {
        StaysPending(Rewriting(p), value, output, cursor, index);
        index := tile.end;
      }
    }
    OutlookAtEnd(Rewriting(p), value, output, cursor);
    return Some(output + value[cursor..]);
  }

  method ReplaceToken(caption: string, inner: string, t: Token, url: string) returns (r: Replacement)
    requires t.start <= t.end <= |inner|
    requires t.start > 0 && inner[t.start - 1] == '<' ==> t.end < |inner|
    ensures r == Retargeted(caption, inner, t, url)
  {
    if t.start > 0 && inner[t.start - 1] == '<' {
      r := Linked(caption, inner[..t.start - 1], "<" + url + ">", inner[t.end + 1..]);
    } else {
      r := Linked(caption, inner[..t.start], url, inner[t.end..]);
    }
  }

  /** The body of the loop for one complete link. */
  method RewriteLink(p: Policy, caption: string, inner: string) returns (r: Fate)
    requires IsPolicy(p)
    ensures r == Rewriting(p)(caption, inner)
  {
    RewritingIs(p, caption, inner);
    var token := LinkDestinationToken(p.isSpace, inner);
    if token.None? {
      return Stays;
    }
    var t := token.value;
    var destination := inner[t.start..t.end];
    if !p.splits(destination) {
      return Raises;
    }
    var url := p.internal(destination);
    if url.None? {
      url := p.community(destination);
    }
    var removeWrapper := p.newsletter(destination);
    var replaceEventsLabel := destination == p.events.url && caption == p.events.caption;
    if replaceEventsLabel {
      url := Some(p.events.newUrl);
    }
    if url.None? && !removeWrapper && !replaceEventsLabel {
      return Stays;
    }
    if removeWrapper {
      return Becomes(Bare(caption));
    }
    assert url == NewUrl(p, caption, destination);
    AngleIsClosed(p.isSpace, inner);
    var newCaption := if replaceEventsLabel then p.events.newCaption else caption;
    var link := ReplaceToken(newCaption, inner, t, url.value);
    return Becomes(link);
  }

  // ---- what the tiles are ----

  /** An inline link starts at `i`: matching brackets around the label, then matching parentheses. */
  ghost predicate IsLink(s: string, i: nat, link: Link) {
    && i < |s| && s[i] == '[' && (i > 0 ==> s[i - 1] != '\\' && s[i - 1] != '!')
    && Closes(Brackets(Some('['), ']'), s, i + 1, link.labelEnd) && link.labelEnd + 1 < |s| && s[link.labelEnd + 1] == '('
    && Closes(Brackets(Some('('), ')'), s, link.labelEnd + 2, link.end)
  }

  lemma LinkIff(s: string, i: nat, link: Link)
    requires i < |s|
    ensures LinkAt(s, i) == Some(link) <==> IsLink(s, i, link)
  {
    ClosingIff(LABEL, s, i + 1, link.labelEnd);
    if Closing(LABEL, s, i + 1, 0) == Some(link.labelEnd) { ClosingIff(DESTINATION, s, link.labelEnd + 2, link.end); }
  }

  /** Backticks up to the next occurrence of as many, or up to the end of the text when there is none. */
  ghost predicate IsCodeSpan(s: string, start: nat, end: nat) {
    && start < |s| && s[start] == '`'
    && var run := RunEnd(s, start, '`') - start;
       IsFenced(s, s[start..start + run], start + run, end)
  }

  /** `end` is where the first `fence` from `from` on ends, or the end of the text. */
  ghost predicate IsFenced(s: string, fence: string, from: nat, end: nat) {
    || (from <= end - |fence| && OccursAt(s, fence, end - |fence|) && forall k :: from <= k < end - |fence| ==> !OccursAt(s, fence, k))
    || (end == |s| && forall k :: from <= k < |s| ==> !OccursAt(s, fence, k))
  }

  /** A link starts at `i`, ends before `end` and has that fate. */
  ghost predicate IsLinkWith(rewrite: Rewriter, s: string, i: nat, end: nat, fate: Fate) {
    exists link :: IsLink(s, i, link) && end == link.end + 1
                   && rewrite(s[i + 1..link.labelEnd], s[link.labelEnd + 2..link.end]) == fate
  }

  /** Each tile is what its kind says, and there is no other case. */
  lemma TileMeans(rewrite: Rewriter, s: string, i: nat)
    requires i < |s|
    ensures var t := TileAt(rewrite, s, i);
            match t.kind
            case Code => IsCodeSpan(s, i, t.end)
            case Plain => t.end == i + 1 && s[i] != '`' && forall link :: !IsLink(s, i, link)
            case Kept => IsLinkWith(rewrite, s, i, t.end, Stays)
            case Refused => IsLinkWith(rewrite, s, i, t.end, Raises)
            case Rewritten(text) => exists link :: text == TextOf(link) && IsLinkWith(rewrite, s, i, t.end, Becomes(link))
  {
    forall link ensures LinkAt(s, i) == Some(link) <==> IsLink(s, i, link) { LinkIff(s, i, link); }
    if LinkAt(s, i).Some? { assert IsLink(s, i, LinkAt(s, i).value); }
  }

  /** The tiles follow one another from `from` to `to`. */
  ghost predicate TileChain(tiles: seq<Tile>, from: nat, to: nat) {
    if tiles == [] then from == to
    else tiles[0].start == from < tiles[0].end && TileChain(tiles[1..], tiles[0].end, to)
  }

  /** The tiles cover the text, in order and without overlap. */
  lemma {:induction false} TilesCover(rewrite: Rewriter, s: string, i: nat)
    requires i <= |s|
    ensures TileChain(Tiles(rewrite, s, i), i, |s|)
    ensures forall t :: t in Tiles(rewrite, s, i) ==> t.start < |s| && t == TileAt(rewrite, s, t.start)
    decreases |s| - i
  {
    if i < |s| {
      var next := TileAt(rewrite, s, i).end;
      TilesCover(rewrite, s, next);
      assert Tiles(rewrite, s, i)[1..] == Tiles(rewrite, s, next);
    }
  }

  lemma {:induction false} ChainIsOrdered(tiles: seq<Tile>, from: nat, to: nat, j: nat, k: nat)
    requires TileChain(tiles, from, to) && j < k < |tiles|
    ensures from <= tiles[j].start < tiles[j].end <= tiles[k].start
  {
    if j > 0 {
      ChainIsOrdered(tiles[1..], tiles[0].end, to, j - 1, k - 1);
    } else if k > 1 {
      ChainIsOrdered(tiles[1..], tiles[0].end, to, 0, k - 1);
    }
  }

  /** Nothing else, a link in particular, starts inside a code span or ends there. */
  lemma LinksAvoidCode(rewrite: Rewriter, s: string, code: Tile, link: Tile)
    requires code in Tiles(rewrite, s, 0) && link in Tiles(rewrite, s, 0)
    requires code.kind == Code && link.kind != Code
    ensures link.end <= code.start || code.end <= link.start
  {
    var tiles := Tiles(rewrite, s, 0);
    TilesCover(rewrite, s, 0);
    var j :| 0 <= j < |tiles| && tiles[j] == code;
    var k :| 0 <= k < |tiles| && tiles[k] == link;
    if j < k { ChainIsOrdered(tiles, 0, |s|, j, k); } else { ChainIsOrdered(tiles, 0, |s|, k, j); }
  }

  // ---- the output as a splice ----

  function RewrittenTiles(tiles: seq<Tile>): seq<Tile> {
    if tiles == [] then []
    else (if tiles[0].kind.Rewritten? then [tiles[0]] else []) + RewrittenTiles(tiles[1..])
  }

  /** `s` from `cursor` on with the given ranges replaced by their texts. */
  function Spliced(s: string, cursor: nat, links: seq<Tile>): string
    decreases |links|
  {
    if cursor > |s| then []
    else if links == [] then s[cursor..]
    else if cursor <= links[0].start < links[0].end <= |s| && links[0].kind.Rewritten?
    then s[cursor..links[0].start] + links[0].kind.text + Spliced(s, links[0].end, links[1..])
    else []
  }

  /** Ranges that lie in order and apart. */
  ghost predicate Apart(links: seq<Tile>, from: nat, to: nat) {
    if links == [] then from <= to
    else from <= links[0].start < links[0].end && links[0].kind.Rewritten? && Apart(links[1..], links[0].end, to)
  }

  /** The output is the input with ordered, disjoint ranges substituted. */
  lemma {:induction false} OutputIsSplice(rewrite: Rewriter, s: string, i: nat)
    requires i <= |s|
    ensures Apart(RewrittenTiles(Tiles(rewrite, s, i)), i, |s|)
    ensures Rendered(s, Tiles(rewrite, s, i)) == Spliced(s, i, RewrittenTiles(Tiles(rewrite, s, i)))
    decreases |s| - i
  {
    if i < |s| {
      var t := TileAt(rewrite, s, i);
      var rest := Tiles(rewrite, s, t.end);
      OutputIsSplice(rewrite, s, t.end);
      TilesStep(rewrite, s, i);
      assert Tiles(rewrite, s, i)[1..] == rest;
      var links := RewrittenTiles(rest);
      if t.kind.Rewritten? {
        assert RewrittenTiles(Tiles(rewrite, s, i))[1..] == links;
        assert s[i..i] + t.kind.text == t.kind.text;
      } else {
        assert RewrittenTiles(Tiles(rewrite, s, i)) == links;
        SplicedEarlier(s, i, t.end, links);
      }
    }
  }

  lemma SplicedEarlier(s: string, i: nat, end: nat, links: seq<Tile>)
    requires i <= end <= |s| && Apart(links, end, |s|)
    ensures s[i..end] + Spliced(s, end, links) == Spliced(s, i, links)
  {
    ApartFits(links, end, |s|);
    if links == [] {
      assert s[i..end] + s[end..] == s[i..];
    } else {
      var first := links[0];
      Regroup(s[i..end], s[end..first.start], first.kind.text, Spliced(s, first.end, links[1..]));
      assert s[i..end] + s[end..first.start] == s[i..first.start];
    }
  }

  lemma {:induction false} ApartFits(links: seq<Tile>, from: nat, to: nat)
    requires Apart(links, from, to)
    ensures from <= to && (links != [] ==> links[0].end <= to)
  {
    if links != [] { ApartFits(links[1..], links[0].end, to); }
  }

  /** When no link of the text is to be rewritten the text stays as it is. */
  lemma NothingToRewrite(rewrite: Rewriter, s: string)
    requires forall i: nat, link :: IsLink(s, i, link) ==> rewrite(s[i + 1..link.labelEnd], s[link.labelEnd + 2..link.end]) == Stays
    ensures !HasRefused(Tiles(rewrite, s, 0))
    ensures Rendered(s, Tiles(rewrite, s, 0)) == s
  {
    TilesCover(rewrite, s, 0);
    forall t | t in Tiles(rewrite, s, 0) ensures !t.kind.Rewritten? && !t.kind.Refused? { TileMeans(rewrite, s, t.start); }
    NoneRewritten(Tiles(rewrite, s, 0));
    OutputIsSplice(rewrite, s, 0);
  }

  lemma {:induction false} NoneRewritten(tiles: seq<Tile>)
    requires forall t :: t in tiles ==> !t.kind.Rewritten?
    ensures RewrittenTiles(tiles) == []
  {
    if tiles != [] { NoneRewritten(tiles[1..]); }
  }

  // ---- what a replacement is ----

  /** The destination of a link's contents. */
  ghost predicate LeadsTo(p: Policy, inner: string, t: Token, destination: string) {
    && (IsAngleToken(p.isSpace, inner, t) || IsBareToken(p.isSpace, inner, t))
    && destination == inner[t.start..t.end]
  }

  /** The destination of a link's contents does not split. */
  ghost predicate DoesNotSplit(p: Policy, inner: string) {
    exists t, d :: LeadsTo(p, inner, t, d) && !p.splits(d)
  }

  /** The link has no destination, or one that splits and of which no rule speaks. */
  ghost predicate IsKept(p: Policy, caption: string, inner: string) {
    forall t, d :: LeadsTo(p, inner, t, d) ==>
      p.splits(d) && !p.newsletter(d) && p.internal(d) == None && p.community(d) == None
      && !(d == p.events.url && caption == p.events.caption)
  }

  /**
   A link stays exactly when it has no destination, or one that splits and of which no rule speaks;
   the rewriting raises on it exactly when it has a destination that does not split.
   */
  lemma StaysIff(p: Policy, caption: string, inner: string)
    requires IsPolicy(p)
    ensures FateOf(p, caption, inner) == Stays <==> IsKept(p, caption, inner)
    ensures FateOf(p, caption, inner) == Raises <==> DoesNotSplit(p, inner)
  {
    forall t ensures TokenOf(p.isSpace, inner) == Some(t) <==> IsAngleToken(p.isSpace, inner, t) || IsBareToken(p.isSpace, inner, t) {
      TokenIff(p.isSpace, inner, t);
    }
    if TokenOf(p.isSpace, inner).Some? {
      var t := TokenOf(p.isSpace, inner).value;
      assert LeadsTo(p, inner, t, inner[t.start..t.end]);
    }
  }

  /**
   What a link becomes. It loses its wrapper when it leads to the newsletter. The events link gets its new label and
   address. Any other link keeps its label, and leads inside the site when it can and else to the community page.
   Nothing else of the link changes.
   */
  ghost predicate IsRewritten(p: Policy, caption: string, inner: string, text: string) {
    exists t, d ::
      && LeadsTo(p, inner, t, d) && p.splits(d)
      && if p.newsletter(d) then text == caption
         else if d == p.events.url && caption == p.events.caption then
           text == "[" + p.events.newCaption + "](" + (inner[..t.start] + p.events.newUrl + inner[t.end..]) + ")"
         else if p.internal(d).Some? then text == "[" + caption + "](" + (inner[..t.start] + p.internal(d).value + inner[t.end..]) + ")"
         else p.community(d).Some? && text == "[" + caption + "](" + (inner[..t.start] + p.community(d).value + inner[t.end..]) + ")"
  }

  /** Which link is rewritten, and to what, follows from the policy. */
  lemma ReplacementForm(p: Policy, caption: string, inner: string)
    requires IsPolicy(p) && FateOf(p, caption, inner).Becomes?
    ensures IsRewritten(p, caption, inner, TextOf(FateOf(p, caption, inner).link))
  {
    var t := TokenOf(p.isSpace, inner).value;
    var d := inner[t.start..t.end];
    TokenIff(p.isSpace, inner, t);
    assert LeadsTo(p, inner, t, d);
    if !p.newsletter(d) {
      var newCaption := if IsEventsLink(p, caption, d) then p.events.newCaption else caption;
      OnlyTheTokenChanges(p.isSpace, newCaption, inner, NewUrl(p, caption, d).value);
    }
  }

  /** The events link of the pages, label and address. */
  lemma EventsLinkIsRewritten(p: Policy)
    requires IsPolicy(p) && p.events == EVENTS_RULE && p.splits(EVENTS_RULE.url) && !p.newsletter(EVENTS_RULE.url)
    requires forall i :: 0 <= i < |EVENTS_RULE.url| ==> !p.isSpace(EVENTS_RULE.url[i])
    ensures FateOf(p, EVENTS_RULE.caption, EVENTS_RULE.url) == Becomes(Linked(EVENTS_RULE.newCaption, [], EVENTS_RULE.newUrl, []))
  {
    var url := EVENTS_RULE.url;
    var t := Token(0, |url|);
    assert url[..0] == [] && url[|url|..] == [] && url[0] == 'h';
    assert url[0..|url|] == url;
    TokenIff(p.isSpace, url, t);
  }

  // ---- what the output is made of ----

  /** The kind of a link's tile follows from its label and contents. */
  ghost predicate IsLinkKind(p: Policy, caption: string, inner: string, kind: Kind) {
    match kind
    case Kept => IsKept(p, caption, inner)
    case Refused => DoesNotSplit(p, inner)
    case Rewritten(text) => IsRewritten(p, caption, inner, text)
    case _ => false
  }

  ghost predicate IsLinkTile(p: Policy, s: string, i: nat, end: nat, kind: Kind) {
    exists link :: IsLink(s, i, link) && end == link.end + 1 && IsLinkKind(p, s[i + 1..link.labelEnd], s[link.labelEnd + 2..link.end], kind)
  }

  /** What stands in the text from `i` to `end`, and what becomes of it. */
  ghost predicate IsTile(p: Policy, s: string, i: nat, end: nat, kind: Kind) {
    match kind
    case Code => IsCodeSpan(s, i, end)
    case Plain => i < |s| && end == i + 1 && s[i] != '`' && forall link :: !IsLink(s, i, link)
    case _ => IsLinkTile(p, s, i, end, kind)
  }

  lemma FateMeans(p: Policy, caption: string, inner: string)
    requires IsPolicy(p)
    ensures IsLinkKind(p, caption, inner, KindOf(FateOf(p, caption, inner)))
  {
    StaysIff(p, caption, inner);
    if FateOf(p, caption, inner).Becomes? { ReplacementForm(p, caption, inner); }
  }

  lemma TileOfKind(p: Policy, s: string, i: nat, link: Link, kind: Kind)
    requires IsLink(s, i, link) && IsLinkKind(p, s[i + 1..link.labelEnd], s[link.labelEnd + 2..link.end], kind)
    ensures IsTile(p, s, i, link.end + 1, kind)
  {
    assert IsLinkTile(p, s, i, link.end + 1, kind);
  }

  lemma LinkTileMeans(p: Policy, s: string, i: nat, link: Link)
    requires IsPolicy(p) && i < |s| && LinkAt(s, i) == Some(link)
    ensures var t := TileAt(Rewriting(p), s, i); IsTile(p, s, i, t.end, t.kind)
  {
    var kind := KindOf(FateOf(p, s[i + 1..link.labelEnd], s[link.labelEnd + 2..link.end]));
    TileOfKnownLink(p, s, i, link);
    assert TileAt(Rewriting(p), s, i) == Tile(i, link.end + 1, kind);
    assert IsTile(p, s, i, link.end + 1, kind) by {
      FateMeans(p, s[i + 1..link.labelEnd], s[link.labelEnd + 2..link.end]);
      LinkIff(s, i, link);
      TileOfKind(p, s, i, link, kind);
    }
  }

  lemma OtherTileMeans(p: Policy, s: string, i: nat)
    requires i < |s| && LinkAt(s, i).None?
    ensures var t := TileAt(Rewriting(p), s, i); IsTile(p, s, i, t.end, t.kind)
  {
    TileMeans(Rewriting(p), s, i);
  }

  lemma TileIsMeant(p: Policy, s: string, i: nat)
    requires IsPolicy(p) && i < |s|
    ensures var t := TileAt(Rewriting(p), s, i); IsTile(p, s, i, t.end, t.kind)
  {
    if LinkAt(s, i).Some? { LinkTileMeans(p, s, i, LinkAt(s, i).value); } else { OtherTileMeans(p, s, i); }
  }

  /** Each tile of a text is what its kind says under the policy. */
  lemma TilesMean(p: Policy, s: string)
    requires IsPolicy(p)
    ensures forall t :: t in Tiles(Rewriting(p), s, 0) ==> IsTile(p, s, t.start, t.end, t.kind)
  {
    TilesCover(Rewriting(p), s, 0);
    forall t | t in Tiles(Rewriting(p), s, 0) ensures IsTile(p, s, t.start, t.end, t.kind) { TileIsMeant(p, s, t.start); }
  }

  /**
   The tiles of a text follow one another through it, and each is what its kind says; in the output the rewritten
   ones are replaced by their texts and all else stays.
   */
  ghost predicate IsOutput(p: Policy, s: string, tiles: seq<Tile>, output: string) {
    && TileChain(tiles, 0, |s|) && (forall t :: t in tiles ==> IsTile(p, s, t.start, t.end, t.kind))
    && output == Spliced(s, 0, RewrittenTiles(tiles))
  }

  // ---- when rewriting raises ----

  /** The tile is a link, and its destination does not split. */
  ghost predicate IsUnsplitLink(p: Policy, s: string, tile: Tile) {
    exists link :: IsLink(s, tile.start, link) && tile.end == link.end + 1 && DoesNotSplit(p, s[link.labelEnd + 2..link.end])
  }

  /** Rewriting raises exactly when the destination of some link among the tiles does not split. */
  lemma RaisesIff(p: Policy, s: string)
    requires IsPolicy(p)
    ensures HasRefused(Tiles(Rewriting(p), s, 0)) <==> exists tile :: tile in Tiles(Rewriting(p), s, 0) && IsUnsplitLink(p, s, tile)
  {
    TilesCover(Rewriting(p), s, 0);
    forall tile | tile in Tiles(Rewriting(p), s, 0) ensures tile.kind == Refused <==> IsUnsplitLink(p, s, tile) {
      RefusedIff(p, s, tile.start);
    }
  }

  lemma TileOfKnownLink(p: Policy, s: string, i: nat, link: Link)
    requires i < |s| && LinkAt(s, i) == Some(link)
    ensures TileAt(Rewriting(p), s, i)
         == Tile(i, link.end + 1, KindOf(FateOf(p, s[i + 1..link.labelEnd], s[link.labelEnd + 2..link.end])))
  {
    TileOfLink(Rewriting(p), s, i, link);
    RewritingIs(p, s[i + 1..link.labelEnd], s[link.labelEnd + 2..link.end]);
  }

  lemma TileOfLink(rewrite: Rewriter, s: string, i: nat, link: Link)
    requires i < |s| && LinkAt(s, i) == Some(link)
    ensures TileAt(rewrite, s, i)
         == Tile(i, link.end + 1, KindOf(rewrite(s[i + 1..link.labelEnd], s[link.labelEnd + 2..link.end])))
  {
  }

  lemma RefusedLink(p: Policy, s: string, i: nat, link: Link)
    requires IsPolicy(p) && i < |s| && LinkAt(s, i) == Some(link)
    ensures TileAt(Rewriting(p), s, i).kind == Refused <==> DoesNotSplit(p, s[link.labelEnd + 2..link.end])
    ensures TileAt(Rewriting(p), s, i).end == link.end + 1
  {
    TileOfKnownLink(p, s, i, link);
    StaysIff(p, s[i + 1..link.labelEnd], s[link.labelEnd + 2..link.end]);
  }

  lemma UnsplitIsRefused(p: Policy, s: string, i: nat)
    requires IsPolicy(p) && i < |s| && IsUnsplitLink(p, s, TileAt(Rewriting(p), s, i))
    ensures TileAt(Rewriting(p), s, i).kind == Refused
  {
    var link := UnsplitLinkAt(p, s, i, TileAt(Rewriting(p), s, i));
    RefusedLink(p, s, i, link);
  }

  lemma UnsplitLinkAt(p: Policy, s: string, i: nat, tile: Tile) returns (link: Link)
    requires i < |s| && tile.start == i && IsUnsplitLink(p, s, tile)
    ensures LinkAt(s, i) == Some(link) && DoesNotSplit(p, s[link.labelEnd + 2..link.end])
  {
    link :| IsLink(s, i, link) && tile.end == link.end + 1 && DoesNotSplit(p, s[link.labelEnd + 2..link.end]);
    LinkIff(s, i, link);
  }

  lemma RefusedIff(p: Policy, s: string, i: nat)
    requires IsPolicy(p) && i < |s|
    ensures var tile := TileAt(Rewriting(p), s, i); tile.kind == Refused <==> IsUnsplitLink(p, s, tile)
  {
    var tile := TileAt(Rewriting(p), s, i);
    if IsUnsplitLink(p, s, tile) { UnsplitIsRefused(p, s, i); }
    if tile.kind == Refused {
      LinkIff(s, i, LinkAt(s, i).value);
      RefusedLink(p, s, i, LinkAt(s, i).value);
    }
  }

  /** The address `//[b` opens a host in brackets and does not close it. */
  lemma OpenBracketRaises(p: Policy)
    requires IsPolicy(p) && !p.splits("//[b") && !p.isSpace('/') && !p.isSpace('[') && !p.isSpace('b')
    ensures HasRefused(Tiles(Rewriting(p), "[a](//[b)", 0))
  {
    var s, inner, tile := "[a](//[b)", "//[b", TileAt(Rewriting(p), "[a](//[b)", 0);
    LinkIff(s, 0, Link(2, 8));
    assert s[4..8] == inner;
    assert inner[..0] == [] && inner[0..4] == inner;
    assert IsBareToken(p.isSpace, inner, Token(0, 4));
    assert LeadsTo(p, inner, Token(0, 4), inner);
    assert IsLink(s, 0, Link(2, 8));
    RefusedIff(p, s, 0);
    RefusedStep(Rewriting(p), s, 0);
  }
}
