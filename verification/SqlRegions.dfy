/**
 The grammar of SQL text as far as splitting is concerned: quoted texts, dollar quotes,
 comments and ordinary characters. The splitter cuts at the semicolons outside all regions.
 */
module SqlRegions {
  import opened Wrappers
  import opened Sequences
  import opened Characters
  import opened SqlSplit

  // ---------------------------------------------------------------------------
  // The grammar
  // ---------------------------------------------------------------------------

  /** What stands in a block comment, up to its end: characters and nested comments. */
  datatype Items = Stop | Ch(c: char, tail: Items) | Sub(inner: Items, tail: Items)

  function Spell(x: Items): (s: string)
    ensures |s| >= 2
  {
    match x
    case Stop => "*/"
    case Ch(c, tail) => [c] + Spell(tail)
    case Sub(inner, tail) => "/*" + (Spell(inner) + Spell(tail))
  }

  /** The character and what follows it do not open or close a comment. */
  predicate Alone(c: char, more: string) { !(c == '/' && Starts(more, '*')) && !(c == '*' && Starts(more, '/')) }

  predicate GoodItems(x: Items) {
    match x
    case Stop => true
    case Ch(c, tail) => Alone(c, Spell(tail)) && GoodItems(tail)
    case Sub(inner, tail) => GoodItems(inner) && GoodItems(tail)
  }

  /** A region of the text, or a single character outside all regions. */
  datatype Part =
    | Quoted(quote: char, body: string)
    | Dollar(tag: string, body: string)
    | Line(body: string)
    | Block(items: Items)
    | Ordinary(c: char)

  function Delimiter(tag: string): string { "$" + tag + "$" }

  function TextOf(p: Part): (s: string)
    ensures s != ""
  {
    match p
    case Quoted(q, body) => [q] + (body + [q])
    case Dollar(tag, body) => Delimiter(tag) + (body + Delimiter(tag))
    case Line(body) => "--" + (body + "\n")
    case Block(items) => "/*" + Spell(items)
    case Ordinary(c) => [c]
  }

  predicate IsQuote(c: char) { c == '\'' || c == '"' }

  /** In a quoted text the quote itself stands doubled. */
  predicate IsDoubled(b: string, q: char) {
    b == "" || (b[0] != q && IsDoubled(b[1..], q)) || (|b| > 1 && b[0] == q && b[1] == q && IsDoubled(b[2..], q))
  }

  predicate IsTag(tag: string) {
    tag == "" || (IsTagStart(tag[0]) && forall i :: 0 <= i < |tag| ==> IsTagChar(tag[i]))
  }

  /** The delimiter does not occur from any of the first `n` positions on. */
  predicate NotBefore(s: string, d: string, n: nat)
    requires n <= |s|
  {
    forall j :: 0 <= j < n ==> !StartsWith(s[j..], d)
  }

  /** The delimiter stands right behind the body, and not before. */
  predicate EndsFirst(body: string, d: string) { NotBefore(body + d, d, |body|) }

  /** No region begins here. */
  ghost predicate BeginsNothing(s: string) {
    && s != "" && !IsQuote(s[0]) && !Starts2(s, '-', '-') && !Starts2(s, '/', '*')
    && forall tag :: IsTag(tag) ==> !StartsWith(s, Delimiter(tag))
  }

  /** The part may stand in front of `rest`. */
  ghost predicate IsPart(p: Part, rest: string) {
    match p
    case Quoted(q, body) => IsQuote(q) && IsDoubled(body, q) && !Starts(rest, q)
    case Dollar(tag, body) => IsTag(tag) && EndsFirst(body, Delimiter(tag))
    case Line(body) => '\n' !in body
    case Block(items) => GoodItems(items)
    case Ordinary(c) => BeginsNothing([c] + rest)
  }

  /** A block comment that the text ends in. */
  datatype OpenItems = Cut | OpenCh(c: char, tail: OpenItems) | OpenSub(inner: Items, tail: OpenItems) | Deeper(deeper: OpenItems)

  function SpellOpen(x: OpenItems): string {
    match x
    case Cut => ""
    case OpenCh(c, tail) => [c] + SpellOpen(tail)
    case OpenSub(inner, tail) => "/*" + (Spell(inner) + SpellOpen(tail))
    case Deeper(inner) => "/*" + SpellOpen(inner)
  }

  predicate GoodOpen(x: OpenItems) {
    match x
    case Cut => true
    case OpenCh(c, tail) => Alone(c, SpellOpen(tail)) && GoodOpen(tail)
    case OpenSub(inner, tail) => GoodItems(inner) && GoodOpen(tail)
    case Deeper(inner) => GoodOpen(inner)
  }

  /** A region that the text ends in, or nothing. */
  datatype End =
    | Nothing | OpenQuote(quote: char, body: string) | OpenDollar(tag: string, body: string)
    | OpenLine(body: string) | OpenBlock(items: OpenItems)

  function TextOfEnd(e: End): string {
    match e
    case Nothing => ""
    case OpenQuote(q, body) => [q] + body
    case OpenDollar(tag, body) => Delimiter(tag) + body
    case OpenLine(body) => "--" + body
    case OpenBlock(items) => "/*" + SpellOpen(items)
  }

  predicate IsEnd(e: End) {
    match e
    case Nothing => true
    case OpenQuote(q, body) => IsQuote(q) && IsDoubled(body, q)
    case OpenDollar(tag, body) => IsTag(tag) && NotBefore(body, Delimiter(tag), |body|)
    case OpenLine(body) => '\n' !in body
    case OpenBlock(items) => GoodOpen(items)
  }

  /** The text is these parts, one after the other, and this end. */
  ghost predicate Decomposes(s: string, ps: seq<Part>, e: End)
    decreases |ps|
  {
    if ps == [] then s == TextOfEnd(e) && IsEnd(e)
    else
      var n := |TextOf(ps[0])|;
      n <= |s| && s[..n] == TextOf(ps[0]) && IsPart(ps[0], s[n..]) && Decomposes(s[n..], ps[1..], e)
  }

  /** An ordinary semicolon stands at this position of the parts' text. */
  predicate SemicolonAt(ps: seq<Part>, i: int)
    decreases |ps|
  {
    ps != [] && ((i == 0 && ps[0] == Ordinary(';')) || SemicolonAt(ps[1..], i - |TextOf(ps[0])|))
  }

  // ---------------------------------------------------------------------------
  // Passing over a stretch without a separator
  // ---------------------------------------------------------------------------

  /** The lexer goes from one mode to the other over `n` characters and meets no separator. */
  ghost predicate Passes(mode: Mode, s: string, n: nat, after: Mode) {
    ModeAfter(mode, s, n) == Some(after) && forall i: nat :: i < n ==> !IsSeparator(mode, s, i)
  }

  lemma PassNothing(mode: Mode, s: string)
    ensures Passes(mode, s, 0, mode)
  {}

  lemma PassStep(mode: Mode, s: string, t: Token, tail: string, n: nat, after: Mode)
    requires s != "" && !AtSeparator(mode, s) && t == Next(mode, s) && tail == s[t.length..]
    requires Passes(t.mode, tail, n, after)
    ensures Passes(mode, s, t.length + n, after)
  {
    forall i: nat | i < t.length + n ensures !IsSeparator(mode, s, i) {
      if i >= t.length {
        SeparatorStep(mode, s, t, tail, i);
      }
    }
  }

  lemma ModeStep(mode: Mode, s: string, n: nat, t: Token, tail: string)
    requires s != "" && t == Next(mode, s) && tail == s[t.length..] && 0 < n
    ensures ModeAfter(mode, s, n) == if t.length > n then None else ModeAfter(t.mode, tail, n - t.length)
  {}

  /** Going on for `n` characters behind the first `m`. */
  ghost predicate GoesOnFrom(mode: Mode, s: string, m: nat, mid: Mode, rest: string, n: nat) {
    ModeAfter(mode, s, m + n) == ModeAfter(mid, rest, n)
  }

  /** The stretch without its first token. */
  lemma StretchTail(mode: Mode, s: string, m: nat, mid: Mode, rest: string, n: nat)
    returns (next: Mode, tail: string, m': nat)
    requires m > 0 && ModeAfter(mode, s, m) == Some(mid) && m <= |s| && rest == s[m..]
    ensures ModeAfter(next, tail, m') == Some(mid) && m' <= |tail| && rest == tail[m'..] && |tail| < |s|
    ensures ModeAfter(mode, s, m + n) == ModeAfter(next, tail, m' + n)
  {
    var t := Next(mode, s);
    next, tail, m' := t.mode, s[t.length..], m - t.length;
    ModeStep(mode, s, m, t, tail);
    ModeStep(mode, s, m + n, t, tail);
    DropTwice(s, t.length, m');
  }

  lemma StretchStep(mode: Mode, s: string, m: nat, mid: Mode, rest: string, n: nat, next: Mode, tail: string, m': nat)
    requires ModeAfter(mode, s, m + n) == ModeAfter(next, tail, m' + n) && GoesOnFrom(next, tail, m', mid, rest, n)
    ensures GoesOnFrom(mode, s, m, mid, rest, n)
  {}

  lemma NoStretch(mode: Mode, s: string, mid: Mode, rest: string, n: nat)
    requires ModeAfter(mode, s, 0) == Some(mid) && rest == s[0..]
    ensures GoesOnFrom(mode, s, 0, mid, rest, n)
  {}

  lemma {:induction false} ModeGoesOn(mode: Mode, s: string, m: nat, mid: Mode, rest: string, n: nat)
    requires ModeAfter(mode, s, m) == Some(mid) && m <= |s| && rest == s[m..]
    ensures GoesOnFrom(mode, s, m, mid, rest, n)
    decreases |s|
  {
    if m == 0 {
      NoStretch(mode, s, mid, rest, n);
    } else {
      var next, tail, m' := StretchTail(mode, s, m, mid, rest, n);
      ModeGoesOn(next, tail, m', mid, rest, n);
      StretchStep(mode, s, m, mid, rest, n, next, tail, m');
    }
  }

  lemma SameSeparator(mode: Mode, s: string, i: nat, mid: Mode, rest: string, k: nat)
    requires ModeAfter(mode, s, i) == ModeAfter(mid, rest, k)
    requires (i < |s| <==> k < |rest|) && (i < |s| ==> s[i] == rest[k])
    ensures IsSeparator(mode, s, i) <==> IsSeparator(mid, rest, k)
  {}

  lemma SameCharacter(s: string, m: nat, rest: string, i: nat, k: nat)
    requires m <= |s| && rest == s[m..] && i == m + k
    ensures (i < |s| <==> k < |rest|) && (i < |s| ==> s[i] == rest[k])
  {}

  /** Behind a stretch the separators are those of the rest. */
  lemma SeparatorBehind(mode: Mode, s: string, m: nat, mid: Mode, rest: string, i: nat, k: nat)
    requires ModeAfter(mode, s, m) == Some(mid) && m <= |s| && rest == s[m..] && i == m + k
    ensures IsSeparator(mode, s, i) <==> IsSeparator(mid, rest, k)
  {
    ModeGoesOn(mode, s, m, mid, rest, k);
    SameCharacter(s, m, rest, i, k);
    SameSeparator(mode, s, i, mid, rest, k);
  }

  lemma PassTwice(mode: Mode, s: string, m: nat, mid: Mode, rest: string, n: nat, after: Mode)
    requires Passes(mode, s, m, mid) && m <= |s| && rest == s[m..] && Passes(mid, rest, n, after)
    ensures Passes(mode, s, m + n, after)
  {
    ModeGoesOn(mode, s, m, mid, rest, n);
    forall i: nat | i < m + n ensures !IsSeparator(mode, s, i) {
      if i >= m {
        SeparatorBehind(mode, s, m, mid, rest, i, i - m);
      }
    }
  }

  // ---------------------------------------------------------------------------
  // The inside of the regions
  // ---------------------------------------------------------------------------

  function QuoteMode(q: char): Mode { if q == '\'' then SingleQuote else DoubleQuote }

  /** Over a body of a quoted text, up to what follows it. */
  lemma {:induction false} QuotedBodyPasses(q: char, b: string, s: string, more: string)
    requires IsQuote(q) && IsDoubled(b, q) && s == b + more
    ensures Passes(QuoteMode(q), s, |b|, QuoteMode(q))
    decreases |b|
  {
    if b != "" {
      var n := if b[0] == q then 2 else 1;
      assert s[n..] == b[n..] + more && s[0] == b[0] && (n == 2 ==> s[1] == b[1]);
      QuotedBodyPasses(q, b[n..], s[n..], more);
      PassStep(QuoteMode(q), s, Token(n, QuoteMode(q)), s[n..], |b| - n, QuoteMode(q));
    }
  }

  lemma QuotePasses(q: char, b: string, rest: string, s: string)
    requires IsQuote(q) && IsDoubled(b, q) && !Starts(rest, q) && s == b + ([q] + rest)
    ensures Passes(QuoteMode(q), s, |b| + 1, Plain)
  {
    var end := [q] + rest;
    assert end[1..] == rest && s[|b|..] == end;
    QuotedBodyPasses(q, b, s, end);
    PassNothing(Plain, rest);
    PassStep(QuoteMode(q), end, Token(1, Plain), rest, 0, Plain);
    PassTwice(QuoteMode(q), s, |b|, QuoteMode(q), end, 1, Plain);
  }

  /** Characters of a dollar quote in front of which its delimiter does not stand. */
  lemma {:induction false} DollarBodyPasses(tag: string, s: string, n: nat)
    requires n <= |s| && NotBefore(s, Delimiter(tag), n)
    ensures Passes(DollarQuote(tag), s, n, DollarQuote(tag))
    decreases n
  {
    if n > 0 {
      assert s[0..] == s && !StartsWith(s, Delimiter(tag));
      NotBeforeTail(s, Delimiter(tag), n);
      DollarBodyPasses(tag, s[1..], n - 1);
      PassStep(DollarQuote(tag), s, Token(1, DollarQuote(tag)), s[1..], n - 1, DollarQuote(tag));
    }
  }

  lemma NotBeforeTail(s: string, d: string, n: nat)
    requires 0 < n <= |s| && NotBefore(s, d, n)
    ensures NotBefore(s[1..], d, n - 1)
  {
    assert forall j :: 0 <= j < n - 1 ==> s[1..][j..] == s[j + 1..];
  }

  lemma NotBeforeWithMore(s: string, d: string, n: nat, more: string)
    requires n + |d| <= |s| && NotBefore(s, d, n)
    ensures NotBefore(s + more, d, n)
  {
    forall j | 0 <= j < n ensures !StartsWith((s + more)[j..], d) {
      assert (s + more)[j..] == s[j..] + more;
      StartsWithMore(s[j..], more, d);
    }
  }

  lemma DollarUpToEnd(tag: string, d: string, b: string, end: string, rest: string, s: string)
    requires d == Delimiter(tag) && EndsFirst(b, d) && end == d + rest && s == b + end
    ensures Passes(DollarQuote(tag), s, |b|, DollarQuote(tag)) && s[|b|..] == end
  {
    AppendAssoc(b, d, rest);
    NotBeforeWithMore(b + d, d, |b|, rest);
    DollarBodyPasses(tag, s, |b|);
  }

  lemma DollarEnds(mode: Mode, d: string, end: string, rest: string)
    requires mode.DollarQuote? && d == Delimiter(mode.tag) && end == d + rest
    ensures Passes(mode, end, |d|, Plain)
  {
    assert end[|d|..] == rest && end[..|d|] == d;
    PassNothing(Plain, rest);
    PassStep(mode, end, Token(|d|, Plain), rest, 0, Plain);
  }

  lemma DollarPasses(tag: string, d: string, b: string, end: string, rest: string, s: string)
    requires d == Delimiter(tag) && EndsFirst(b, d) && end == d + rest && s == b + end
    ensures Passes(DollarQuote(tag), s, |b| + |d|, Plain)
  {
    DollarUpToEnd(tag, d, b, end, rest, s);
    DollarEnds(DollarQuote(tag), d, end, rest);
    PassTwice(DollarQuote(tag), s, |b|, DollarQuote(tag), end, |d|, Plain);
  }

  lemma {:induction false} LineBodyPasses(b: string, s: string, more: string)
    requires '\n' !in b && s == b + more
    ensures Passes(LineComment, s, |b|, LineComment)
    decreases |b|
  {
    if b != "" {
      assert s[1..] == b[1..] + more && s[0] == b[0];
      LineBodyPasses(b[1..], s[1..], more);
      PassStep(LineComment, s, Token(1, LineComment), s[1..], |b| - 1, LineComment);
    }
  }

  lemma LinePasses(b: string, rest: string, s: string)
    requires '\n' !in b && s == b + ("\n" + rest)
    ensures Passes(LineComment, s, |b| + 1, Plain)
  {
    var end := "\n" + rest;
    assert end[1..] == rest && s[|b|..] == end;
    LineBodyPasses(b, s, end);
    PassNothing(Plain, rest);
    PassStep(LineComment, end, Token(1, Plain), rest, 0, Plain);
    PassTwice(LineComment, s, |b|, LineComment, end, 1, Plain);
  }

  function Shallower(depth: nat): Mode { if depth <= 1 then Plain else BlockComment(depth - 1) }

  lemma OneInBlock(depth: nat, c: char, tail: string, s: string, n: nat, after: Mode)
    requires s == [c] + tail && Alone(c, tail) && Passes(BlockComment(depth), tail, n, after)
    ensures Passes(BlockComment(depth), s, n + 1, after)
  {
    assert s[1..] == tail;
    PassStep(BlockComment(depth), s, Token(1, BlockComment(depth)), tail, n, after);
  }

  lemma OpenInBlock(depth: nat, tail: string, s: string, n: nat, after: Mode)
    requires s == "/*" + tail && Passes(BlockComment(depth + 1), tail, n, after)
    ensures Passes(BlockComment(depth), s, n + 2, after)
  {
    assert s[2..] == tail;
    PassStep(BlockComment(depth), s, Token(2, BlockComment(depth + 1)), tail, n, after);
  }

  lemma AloneWithMore(c: char, s: string, more: string)
    requires s != "" && Alone(c, s)
    ensures Alone(c, s + more)
  {}

  /** A nested comment and what follows it. */
  lemma SubPasses(depth: nat, a: string, behind: string, s: string, n: nat, after: Mode)
    requires depth > 0 && s == "/*" + (a + behind)
    requires Passes(BlockComment(depth + 1), a + behind, |a|, BlockComment(depth))
    requires Passes(BlockComment(depth), behind, n, after)
    ensures Passes(BlockComment(depth), s, |a| + n + 2, after)
  {
    assert (a + behind)[|a|..] == behind;
    PassTwice(BlockComment(depth + 1), a + behind, |a|, BlockComment(depth), behind, n, after);
    OpenInBlock(depth, a + behind, s, |a| + n, after);
  }

  lemma StopPasses(depth: nat, rest: string, s: string)
    requires depth > 0 && s == "*/" + rest
    ensures Passes(BlockComment(depth), s, 2, Shallower(depth))
  {
    assert s[2..] == rest;
    PassNothing(Shallower(depth), rest);
    PassStep(BlockComment(depth), s, Token(2, Shallower(depth)), rest, 0, Shallower(depth));
  }

  lemma SubText(a: string, b: string, rest: string)
    ensures "/*" + (a + b) + rest == "/*" + (a + (b + rest))
  {
    AppendAssoc(a, b, rest);
    AppendAssoc("/*", a + b, rest);
  }

  lemma {:induction false} BlockPasses(x: Items, depth: nat, rest: string, s: string)
    requires GoodItems(x) && depth > 0 && s == Spell(x) + rest
    ensures Passes(BlockComment(depth), s, |Spell(x)|, Shallower(depth))
    decreases x
  {
    match x
    case Stop => StopPasses(depth, rest, s);
    case Ch(c, tail) =>
      AppendAssoc([c], Spell(tail), rest);
      BlockPasses(tail, depth, rest, Spell(tail) + rest);
      AloneWithMore(c, Spell(tail), rest);
      OneInBlock(depth, c, Spell(tail) + rest, s, |Spell(tail)|, Shallower(depth));
    case Sub(inner, tail) =>
      var a, b := Spell(inner), Spell(tail);
      SubText(a, b, rest);
      BlockPasses(inner, depth + 1, b + rest, a + (b + rest));
      BlockPasses(tail, depth, rest, b + rest);
      SubPasses(depth, a, b + rest, s, |b|, Shallower(depth));
  }

  lemma {:induction false} OpenBlockPasses(x: OpenItems, depth: nat) returns (after: Mode)
    requires GoodOpen(x) && depth > 0
    ensures Passes(BlockComment(depth), SpellOpen(x), |SpellOpen(x)|, after)
    decreases x
  {
    match x
    case Cut => after := BlockComment(depth);
    case OpenCh(c, tail) =>
      after := OpenBlockPasses(tail, depth);
      OneInBlock(depth, c, SpellOpen(tail), SpellOpen(x), |SpellOpen(tail)|, after);
    case OpenSub(inner, tail) =>
      var a, b := Spell(inner), SpellOpen(tail);
      BlockPasses(inner, depth + 1, b, a + b);
      after := OpenBlockPasses(tail, depth);
      assert (a + b)[|a|..] == b;
      PassTwice(BlockComment(depth + 1), a + b, |a|, BlockComment(depth), b, |b|, after);
      OpenInBlock(depth, a + b, SpellOpen(x), |a| + |b|, after);
    case Deeper(inner) =>
      after := OpenBlockPasses(inner, depth + 1);
      OpenInBlock(depth, SpellOpen(inner), SpellOpen(x), |SpellOpen(inner)|, after);
  }

  // ---------------------------------------------------------------------------
  // The beginning of the regions
  // ---------------------------------------------------------------------------

  lemma TagRunIs(u: string, n: nat)
    requires n < |u| && (forall i :: 0 <= i < n ==> IsTagChar(u[i])) && !IsTagChar(u[n])
    ensures TagRun(u) == n
  {}

  lemma TagIsFound(s: string, tag: string, d: string)
    requires IsTag(tag) && d == Delimiter(tag) && StartsWith(s, d)
    ensures OpeningTag(s) == Some(tag)
  {
    var u, n := s[1..], |tag|;
    assert d[0] == '$' && d[n + 1] == '$' && d[1..n + 1] == tag;
    assert s[0] == d[0] && s[n + 1] == d[n + 1];
    assert s[1..n + 1] == d[1..n + 1];
    assert forall i :: 0 <= i < n ==> u[i] == tag[i];
    assert u[n] == '$';
    TagRunIs(u, n);
  }

  lemma FoundIsTag(s: string, tag: string, d: string)
    requires OpeningTag(s) == Some(tag) && d == Delimiter(tag)
    ensures IsTag(tag) && StartsWith(s, d)
  {
    var n := TagRun(s[1..]);
    assert tag == s[1..n + 1];
    assert forall i :: 0 <= i < n ==> tag[i] == s[1..][i];
    assert d == s[..n + 2];
  }

  /** The tag found is the one whose delimiter stands here. */
  lemma OpeningTagExactly(s: string, tag: string)
    ensures OpeningTag(s) == Some(tag) <==> IsTag(tag) && StartsWith(s, Delimiter(tag))
  {
    if OpeningTag(s) == Some(tag) {
      FoundIsTag(s, tag, Delimiter(tag));
    }
    if IsTag(tag) && StartsWith(s, Delimiter(tag)) {
      TagIsFound(s, tag, Delimiter(tag));
    }
  }

  lemma DollarBegins(s: string, tag: string)
    requires IsTag(tag) && StartsWith(s, Delimiter(tag))
    ensures s != "" && s[0] == '$' && Next(Plain, s) == Token(|Delimiter(tag)|, DollarQuote(tag))
  {
    OpeningTagExactly(s, tag);
    assert s[0] == Delimiter(tag)[0];
  }

  lemma OrdinaryBegins(s: string)
    requires BeginsNothing(s)
    ensures Next(Plain, s) == Token(1, Plain)
  {
    if OpeningTag(s).Some? {
      OpeningTagExactly(s, OpeningTag(s).value);
    }
  }

  /** From plain mode into a region and over what is left of it. */
  lemma IntoRegion(s: string, t: Token, inside: string, n: nat, after: Mode)
    requires s != "" && s[0] != ';' && t == Next(Plain, s) && inside == s[t.length..] && Passes(t.mode, inside, n, after)
    ensures Passes(Plain, s, t.length + n, after)
  {
    PassStep(Plain, s, t, inside, n, after);
  }

  lemma QuotedText(q: char, body: string, rest: string)
    ensures [q] + (body + [q]) + rest == [q] + (body + ([q] + rest))
  {
    AppendAssoc(body, [q], rest);
    AppendAssoc([q], body + [q], rest);
  }

  lemma QuotedIsPassed(q: char, body: string, rest: string, s: string)
    requires IsPart(Quoted(q, body), rest) && s == TextOf(Quoted(q, body)) + rest
    ensures Passes(Plain, s, |body| + 2, Plain)
  {
    var inside := body + ([q] + rest);
    QuotedText(q, body, rest);
    assert s[1..] == inside;
    QuotePasses(q, body, rest, inside);
    IntoRegion(s, Token(1, QuoteMode(q)), inside, |body| + 1, Plain);
  }

  lemma DollarText(d: string, body: string, rest: string, inside: string)
    requires inside == body + (d + rest)
    ensures d + (body + d) + rest == d + inside
    ensures (d + inside)[|d|..] == inside && StartsWith(d + inside, d)
  {
    AppendAssoc(d, body + d, rest);
    AppendAssoc(body, d, rest);
  }

  lemma IntoDollar(s: string, tag: string, d: string, inside: string, n: nat)
    requires IsTag(tag) && d == Delimiter(tag) && s == d + inside && Passes(DollarQuote(tag), inside, n, Plain)
    ensures Passes(Plain, s, |d| + n, Plain)
  {
    assert s[|d|..] == inside && s[..|d|] == d;
    DollarBegins(s, tag);
    IntoRegion(s, Token(|d|, DollarQuote(tag)), inside, n, Plain);
  }

  lemma DollarIsPassed(tag: string, d: string, body: string, end: string, rest: string, s: string, inside: string, n: nat)
    requires IsTag(tag) && d == Delimiter(tag) && EndsFirst(body, d)
    requires end == d + rest && inside == body + end && s == d + inside && n == |body| + |d|
    ensures Passes(Plain, s, |d| + n, Plain)
  {
    DollarPasses(tag, d, body, end, rest, inside);
    IntoDollar(s, tag, d, inside, n);
  }

  lemma IntoLine(s: string, inside: string, n: nat)
    requires s == "--" + inside && Passes(LineComment, inside, n, Plain)
    ensures Passes(Plain, s, n + 2, Plain)
  {
    assert s[2..] == inside;
    IntoRegion(s, Token(2, LineComment), inside, n, Plain);
  }

  lemma LineText(body: string, rest: string)
    ensures "--" + (body + "\n") + rest == "--" + (body + ("\n" + rest))
  {
    AppendAssoc(body, "\n", rest);
    AppendAssoc("--", body + "\n", rest);
  }

  lemma LineIsPassed(body: string, rest: string, s: string)
    requires IsPart(Line(body), rest) && s == TextOf(Line(body)) + rest
    ensures Passes(Plain, s, |body| + 3, Plain)
  {
    var inside := body + ("\n" + rest);
    LineText(body, rest);
    LinePasses(body, rest, inside);
    IntoLine(s, inside, |body| + 1);
  }

  lemma IntoBlock(s: string, inside: string, n: nat)
    requires s == "/*" + inside && Passes(BlockComment(1), inside, n, Plain)
    ensures Passes(Plain, s, n + 2, Plain)
  {
    assert s[2..] == inside;
    IntoRegion(s, Token(2, BlockComment(1)), inside, n, Plain);
  }

  lemma BlockIsPassed(items: Items, rest: string, s: string)
    requires IsPart(Block(items), rest) && s == TextOf(Block(items)) + rest
    ensures Passes(Plain, s, |Spell(items)| + 2, Plain)
  {
    AppendAssoc("/*", Spell(items), rest);
    BlockPasses(items, 1, rest, Spell(items) + rest);
    IntoBlock(s, Spell(items) + rest, |Spell(items)|);
  }

  /** Every region is passed from plain mode back to plain mode, and holds no separator. */
  lemma RegionIsPassed(p: Part, rest: string)
    requires IsPart(p, rest) && !p.Ordinary?
    ensures Passes(Plain, TextOf(p) + rest, |TextOf(p)|, Plain)
  {
    match p
    case Quoted(q, body) => QuotedIsPassed(q, body, rest, TextOf(p) + rest);
    case Dollar(tag, body) =>
      var d := Delimiter(tag);
      DollarText(d, body, rest, body + (d + rest));
      DollarIsPassed(tag, d, body, d + rest, rest, TextOf(p) + rest, body + (d + rest), |body| + |d|);
    case Line(body) => LineIsPassed(body, rest, TextOf(p) + rest);
    case Block(items) => BlockIsPassed(items, rest, TextOf(p) + rest);
  }

  lemma EndIsPassed(e: End) returns (after: Mode)
    requires IsEnd(e)
    ensures Passes(Plain, TextOfEnd(e), |TextOfEnd(e)|, after)
  {
    var s := TextOfEnd(e);
    match e
    case Nothing =>
      after := Plain;
      PassNothing(Plain, s);
    case OpenQuote(q, body) =>
      after := QuoteMode(q);
      assert s[1..] == body;
      AppendEmpty(body);
      QuotedBodyPasses(q, body, body, "");
      IntoRegion(s, Token(1, QuoteMode(q)), body, |body|, after);
    case OpenDollar(tag, body) =>
      after := DollarQuote(tag);
      var d := Delimiter(tag);
      assert s[|d|..] == body && s[..|d|] == d;
      DollarBegins(s, tag);
      DollarBodyPasses(tag, body, |body|);
      IntoRegion(s, Token(|d|, after), body, |body|, after);
    case OpenLine(body) =>
      after := LineComment;
      assert s[2..] == body;
      AppendEmpty(body);
      LineBodyPasses(body, body, "");
      IntoRegion(s, Token(2, LineComment), body, |body|, after);
    case OpenBlock(items) =>
      assert s[2..] == SpellOpen(items);
      after := OpenBlockPasses(items, 1);
      IntoRegion(s, Token(2, BlockComment(1)), SpellOpen(items), |SpellOpen(items)|, after);
  }

  // ---------------------------------------------------------------------------
  // A semicolon cuts exactly outside all regions
  // ---------------------------------------------------------------------------

  lemma OrdinaryIsPassed(c: char, s: string, rest: string)
    requires s == [c] + rest && BeginsNothing(s)
    ensures ModeAfter(Plain, s, 1) == Some(Plain) && (IsSeparator(Plain, s, 0) <==> c == ';')
  {
    OrdinaryBegins(s);
    assert s[1..] == rest;
    PassNothing(Plain, rest);
  }

  /** The first part is passed, and holds a separator only when it is one. */
  lemma FirstIsPassed(p: Part, s: string, n: nat, rest: string)
    requires IsPart(p, rest) && n == |TextOf(p)| && s == TextOf(p) + rest
    ensures ModeAfter(Plain, s, n) == Some(Plain)
    ensures forall i: nat :: i < n ==> (IsSeparator(Plain, s, i) <==> i == 0 && p == Ordinary(';'))
  {
    if p.Ordinary? {
      OrdinaryIsPassed(p.c, s, rest);
    } else {
      RegionIsPassed(p, rest);
    }
  }

  /** At this position the splitter and the grammar agree. */
  ghost predicate Agree(s: string, ps: seq<Part>, i: nat) { IsSeparator(Plain, s, i) <==> SemicolonAt(ps, i) }

  /** The text begins with the first of the parts. */
  ghost predicate BeginsWith(s: string, ps: seq<Part>, p: Part, more: seq<Part>, rest: string) {
    ps == [p] + more && s == TextOf(p) + rest && IsPart(p, rest)
  }

  lemma SemicolonBehind(ps: seq<Part>, p: Part, more: seq<Part>, n: nat, i: nat, k: nat)
    requires ps == [p] + more && n == |TextOf(p)| && i == n + k
    ensures SemicolonAt(ps, i) <==> SemicolonAt(more, k)
  {
    assert ps[1..] == more;
  }

  lemma FirstEnds(s: string, p: Part, n: nat, rest: string)
    requires IsPart(p, rest) && n == |TextOf(p)| && s == TextOf(p) + rest
    ensures ModeAfter(Plain, s, n) == Some(Plain) && n <= |s| && rest == s[n..]
  {
    FirstIsPassed(p, s, n, rest);
  }

  lemma CutsBehind(s: string, ps: seq<Part>, p: Part, more: seq<Part>, n: nat, rest: string, i: nat, k: nat)
    requires BeginsWith(s, ps, p, more, rest) && n == |TextOf(p)| && i == n + k && Agree(rest, more, k)
    ensures Agree(s, ps, i)
  {
    FirstEnds(s, p, n, rest);
    SeparatorBehind(Plain, s, n, Plain, rest, i, k);
    SemicolonBehind(ps, p, more, n, i, k);
  }

  lemma CutsAtFirst(s: string, ps: seq<Part>, p: Part, more: seq<Part>, n: nat, rest: string, i: nat)
    requires BeginsWith(s, ps, p, more, rest) && n == |TextOf(p)| && i < n
    ensures Agree(s, ps, i)
  {
    FirstIsPassed(p, s, n, rest);
    NoneBefore(more, i - n);
    assert ps[1..] == more;
  }

  lemma FirstAndMore(s: string, ps: seq<Part>, e: End) returns (p: Part, more: seq<Part>, rest: string, n: nat)
    requires Decomposes(s, ps, e) && ps != []
    ensures BeginsWith(s, ps, p, more, rest) && Decomposes(rest, more, e) && |more| < |ps| && n == |TextOf(p)|
  {
    p, more, n := ps[0], ps[1..], |TextOf(ps[0])|;
    rest := s[n..];
    assert s == s[..n] + rest;
  }

  lemma NoCutInEnd(s: string, e: End, i: nat)
    requires Decomposes(s, [], e)
    ensures Agree(s, [], i)
  {
    var after := EndIsPassed(e);
  }

  lemma {:induction false} AgreeEverywhere(s: string, ps: seq<Part>, e: End, i: nat)
    requires Decomposes(s, ps, e)
    ensures Agree(s, ps, i)
    decreases |ps|
  {
    if ps == [] {
      NoCutInEnd(s, e, i);
    } else {
      var p, more, rest, n := FirstAndMore(s, ps, e);
      if i < n {
        CutsAtFirst(s, ps, p, more, n, rest, i);
      } else {
        var k: nat := i - n;
        AgreeEverywhere(rest, more, e, k);
        CutsBehind(s, ps, p, more, n, rest, i, k);
      }
    }
  }

  /** In a text of these parts a semicolon cuts if and only if it is an ordinary character. */
  lemma SemicolonCutsExactly(s: string, ps: seq<Part>, e: End, i: nat)
    requires Decomposes(s, ps, e)
    ensures IsSeparator(Plain, s, i) <==> SemicolonAt(ps, i)
  {
    AgreeEverywhere(s, ps, e, i);
  }

  lemma {:induction false} NoneBefore(ps: seq<Part>, i: int)
    requires i < 0
    ensures !SemicolonAt(ps, i)
    decreases |ps|
  {
    if ps != [] {
      NoneBefore(ps[1..], i - |TextOf(ps[0])|);
    }
  }

  // ---------------------------------------------------------------------------
  // Every text is made of such parts
  // ---------------------------------------------------------------------------

  /** What stands in a quoted text, up to its end or that of the text. */
  lemma {:induction false} QuoteEnds(s: string, q: char) returns (b: string, closed: bool, rest: string)
    requires IsQuote(q)
    ensures IsDoubled(b, q) && |rest| <= |s|
    ensures if closed then s == b + ([q] + rest) && !Starts(rest, q) else s == b
  {
    if s == "" {
      b, closed, rest := "", false, "";
    } else if s[0] == q && !Starts2(s, q, q) {
      b, closed, rest := "", true, s[1..];
    } else {
      var n := if s[0] == q then 2 else 1;
      var more;
      more, closed, rest := QuoteEnds(s[n..], q);
      b := s[..n] + more;
      assert s == s[..n] + s[n..] && b[n..] == more;
    }
  }

  lemma {:induction false} DelimiterStands(s: string, d: string) returns (b: string, found: bool, rest: string)
    requires d != ""
    ensures |rest| <= |s|
    ensures if found then s == b + (d + rest) && EndsFirst(b, d) else s == b && NotBefore(b, d, |b|)
  {
    if s == "" {
      b, found, rest := "", false, "";
    } else if StartsWith(s, d) {
      b, found, rest := "", true, s[|d|..];
      assert s == d + rest;
    } else {
      var more;
      more, found, rest := DelimiterStands(s[1..], d);
      b := [s[0]] + more;
      assert s == [s[0]] + s[1..];
      if found {
        AppendAssoc(more, d, rest);
        NotBeforeCons(s[0], more + d, d, |more|, rest);
        AppendAssoc([s[0]], more, d);
      } else {
        AppendEmpty(more);
        NotBeforeCons(s[0], more, d, |more|, "");
      }
    }
  }

  lemma NotBeforeCons(c: char, s: string, d: string, n: nat, rest: string)
    requires n <= |s| && NotBefore(s, d, n) && !StartsWith([c] + (s + rest), d)
    ensures NotBefore([c] + s, d, n + 1)
  {
    var t := [c] + s;
    forall j | 0 <= j < n + 1 ensures !StartsWith(t[j..], d) {
      if j == 0 {
        assert t[0..] == t && [c] + (s + rest) == t + rest;
        if |d| <= |t| {
          StartsWithMore(t, rest, d);
        }
      } else {
        assert t[j..] == s[j - 1..];
      }
    }
  }

  lemma {:induction false} LineEnds(s: string) returns (b: string, found: bool, rest: string)
    ensures '\n' !in b && |rest| <= |s|
    ensures if found then s == b + ("\n" + rest) else s == b
  {
    if s == "" {
      b, found, rest := "", false, "";
    } else if s[0] == '\n' {
      b, found, rest := "", true, s[1..];
    } else {
      var more;
      more, found, rest := LineEnds(s[1..]);
      b := [s[0]] + more;
      assert s == [s[0]] + s[1..];
    }
  }

  datatype Comment = Closed(items: Items, rest: string) | Unclosed(cut: OpenItems)

  /** The text behind the opening of a comment is this comment. */
  predicate IsComment(s: string, x: Comment) {
    match x
    case Closed(items, rest) => s == Spell(items) + rest && GoodItems(items)
    case Unclosed(items) => s == SpellOpen(items) && GoodOpen(items)
  }

  lemma CommentCh(c: char, s: string, x: Comment) returns (y: Comment)
    requires IsComment(s, x) && Alone(c, s)
    ensures IsComment([c] + s, y) && (y.Closed? ==> x.Closed? && y.rest == x.rest)
  {
    match x
    case Closed(items, rest) =>
      y := Closed(Ch(c, items), rest);
      AppendAssoc([c], Spell(items), rest);
    case Unclosed(items) => y := Unclosed(OpenCh(c, items));
  }

  lemma CommentSub(s: string, inner: Items, behind: string, x: Comment) returns (y: Comment)
    requires s == "/*" + (Spell(inner) + behind) && GoodItems(inner) && IsComment(behind, x)
    ensures IsComment(s, y) && (y.Closed? ==> x.Closed? && y.rest == x.rest)
  {
    match x
    case Closed(items, rest) =>
      y := Closed(Sub(inner, items), rest);
      assert s == "/*" + (Spell(inner) + Spell(items)) + rest;
    case Unclosed(items) => y := Unclosed(OpenSub(inner, items));
  }

  lemma {:induction false} CommentEnds(s: string) returns (x: Comment)
    ensures IsComment(s, x) && (x.Closed? ==> |x.rest| < |s|)
    decreases |s|
  {
    if s == "" {
      x := Unclosed(Cut);
    } else if Starts2(s, '*', '/') {
      x := Closed(Stop, s[2..]);
      assert s == "*/" + s[2..];
    } else if Starts2(s, '/', '*') {
      assert s == "/*" + s[2..];
      var inner := CommentEnds(s[2..]);
      match inner {
        case Unclosed(items) => x := Unclosed(Deeper(items));
        case Closed(items, behind) =>
          var tail := CommentEnds(behind);
          x := CommentSub(s, items, behind, tail);
      }
    } else {
      assert s == [s[0]] + s[1..];
      var tail := CommentEnds(s[1..]);
      x := CommentCh(s[0], s[1..], tail);
    }
  }

  /** The first part of a text, or its end. */
  datatype First = FirstPart(p: Part, rest: string) | Only(e: End)

  ghost predicate IsFirst(s: string, x: First) {
    match x
    case FirstPart(p, rest) => s == TextOf(p) + rest && IsPart(p, rest)
    case Only(e) => s == TextOfEnd(e) && IsEnd(e)
  }

  lemma FirstQuote(s: string) returns (x: First)
    requires s != "" && IsQuote(s[0])
    ensures IsFirst(s, x)
  {
    assert s == [s[0]] + s[1..];
    var b, closed, rest := QuoteEnds(s[1..], s[0]);
    x := if closed then FirstPart(Quoted(s[0], b), rest) else Only(OpenQuote(s[0], b));
    if closed {
      AppendAssoc(b, [s[0]], rest);
      AppendAssoc([s[0]], b + [s[0]], rest);
    }
  }

  lemma FirstDollar(s: string, tag: string) returns (x: First)
    requires IsTag(tag) && StartsWith(s, Delimiter(tag))
    ensures IsFirst(s, x)
  {
    var d := Delimiter(tag);
    assert s == d + s[|d|..];
    var b, found, rest := DelimiterStands(s[|d|..], d);
    x := if found then FirstPart(Dollar(tag, b), rest) else Only(OpenDollar(tag, b));
    if found {
      AppendAssoc(b, d, rest);
      AppendAssoc(d, b + d, rest);
    }
  }

  lemma FirstLine(s: string) returns (x: First)
    requires Starts2(s, '-', '-')
    ensures IsFirst(s, x)
  {
    assert s == "--" + s[2..];
    var b, found, rest := LineEnds(s[2..]);
    x := if found then FirstPart(Line(b), rest) else Only(OpenLine(b));
    if found {
      AppendAssoc(b, "\n", rest);
      AppendAssoc("--", b + "\n", rest);
    }
  }

  lemma FirstBlock(s: string) returns (x: First)
    requires Starts2(s, '/', '*')
    ensures IsFirst(s, x)
  {
    assert s == "/*" + s[2..];
    var y := CommentEnds(s[2..]);
    match y
    case Closed(items, rest) =>
      x := FirstPart(Block(items), rest);
      AppendAssoc("/*", Spell(items), rest);
    case Unclosed(items) => x := Only(OpenBlock(items));
  }

  lemma FirstOf(s: string) returns (x: First)
    ensures IsFirst(s, x)
  {
    if s == "" {
      x := Only(Nothing);
    } else if IsQuote(s[0]) {
      x := FirstQuote(s);
    } else if Starts2(s, '-', '-') {
      x := FirstLine(s);
    } else if Starts2(s, '/', '*') {
      x := FirstBlock(s);
    } else if exists tag :: IsTag(tag) && StartsWith(s, Delimiter(tag)) {
      var tag :| IsTag(tag) && StartsWith(s, Delimiter(tag));
      x := FirstDollar(s, tag);
    } else {
      assert s == [s[0]] + s[1..];
      x := FirstPart(Ordinary(s[0]), s[1..]);
    }
  }

  lemma DecomposesCons(s: string, p: Part, rest: string, ps: seq<Part>, e: End)
    requires s == TextOf(p) + rest && IsPart(p, rest) && Decomposes(rest, ps, e)
    ensures Decomposes(s, [p] + ps, e)
  {
    assert ([p] + ps)[1..] == ps;
  }

  /** Every text is made of regions, ordinary characters and perhaps a region it ends in. */
  lemma {:induction false} PartsExist(s: string) returns (ps: seq<Part>, e: End)
    ensures Decomposes(s, ps, e)
    decreases |s|
  {
    var x := FirstOf(s);
    match x
    case Only(end) => ps, e := [], end;
    case FirstPart(p, rest) =>
      var more;
      more, e := PartsExist(rest);
      DecomposesCons(s, p, rest, more, e);
      ps := [p] + more;
  }

  /** So the splitter cuts any input exactly at the semicolons that stand outside all its regions. */
  lemma SplitCutsOutsideRegions(input: string) returns (ps: seq<Part>, e: End)
    ensures Decomposes(input, ps, e)
    ensures forall p: nat :: CutAt(Pieces(Plain, "", input), p) <==> SemicolonAt(ps, p)
  {
    ps, e := PartsExist(input);
    SplitIsExact(input);
    forall p: nat ensures CutAt(Pieces(Plain, "", input), p) <==> SemicolonAt(ps, p) {
      SemicolonCutsExactly(input, ps, e, p);
    }
  }
}
