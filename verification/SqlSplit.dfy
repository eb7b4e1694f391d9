/**
 Splitting interactive input into SQL statements, and stripping leading comments.
 */
module SqlSplit {
  import opened Wrappers
  import opened Sequences
  import opened Characters

  // ---------------------------------------------------------------------------
  // Characters
  // ---------------------------------------------------------------------------

  predicate IsAlphabetic(c: char) { 'a' <= c <= 'z' || 'A' <= c <= 'Z' }

  predicate IsTagStart(c: char) { IsAlphabetic(c) || c == '_' }

  predicate IsTagChar(c: char) { IsTagStart(c) || '0' <= c <= '9' }

  predicate AllWhitespace(s: string) { forall i :: 0 <= i < |s| ==> IsWhitespace(s[i]) }

  function TrimStart(s: string): string {
    if s != "" && IsWhitespace(s[0]) then TrimStart(s[1..]) else s
  }

  function TrimEnd(s: string): string {
    if s != "" && IsWhitespace(s[|s| - 1]) then TrimEnd(s[..|s| - 1]) else s
  }

  function Trim(s: string): string { TrimEnd(TrimStart(s)) }

  // ---------------------------------------------------------------------------
  // The lexer
  // ---------------------------------------------------------------------------

  datatype Mode = Plain | LineComment | BlockComment(depth: nat) | SingleQuote | DoubleQuote | DollarQuote(tag: string)

  predicate StartsWith(s: string, p: string) { p <= s }

  /** The first character is `c`. */
  predicate Starts(s: string, c: char) { s != "" && s[0] == c }

  /** The first two characters are `c` and `d`. */
  predicate Starts2(s: string, c: char, d: char) { |s| >= 2 && s[0] == c && s[1] == d }

  /** The longest run of tag characters at the start. */
  function TagRun(s: string): (n: nat)
    ensures n <= |s| && (n < |s| ==> !IsTagChar(s[n]))
    ensures forall i :: 0 <= i < n ==> IsTagChar(s[i])
  {
    if s != "" && IsTagChar(s[0]) then 1 + TagRun(s[1..]) else 0
  }

  /** The tag of the dollar quote that opens here, if one does. */
  function OpeningTag(s: string): (tag: Option<string>)
    ensures tag.Some? ==> |tag.value| + 2 <= |s|
  {
    if !Starts(s, '$') then None
    else
      var n := TagRun(s[1..]);
      if n + 1 < |s| && s[n + 1] == '$' && (n == 0 || IsTagStart(s[1])) then Some(s[1..n + 1]) else None
  }

  /** The next token: its length and the mode behind it. */
  datatype Token = Token(length: nat, mode: Mode)

  function Next(mode: Mode, s: string): (t: Token)
    requires s != ""
    ensures 1 <= t.length <= |s|
  {
    match mode
    case LineComment => Token(1, if s[0] == '\n' then Plain else LineComment)
    case BlockComment(depth) =>
      if Starts2(s, '/', '*') then Token(2, BlockComment(depth + 1))
      else if Starts2(s, '*', '/') then Token(2, if depth <= 1 then Plain else BlockComment(depth - 1))
      else Token(1, mode)
    case SingleQuote =>
      if Starts2(s, '\'', '\'') then Token(2, mode) else Token(1, if s[0] == '\'' then Plain else mode)
    case DoubleQuote =>
      if Starts2(s, '"', '"') then Token(2, mode) else Token(1, if s[0] == '"' then Plain else mode)
    case DollarQuote(tag) =>
      if StartsWith(s, "$" + tag + "$") then Token(|tag| + 2, Plain) else Token(1, mode)
    case Plain =>
      if s[0] == '\'' then Token(1, SingleQuote)
      else if s[0] == '"' then Token(1, DoubleQuote)
      else if OpeningTag(s).Some? then Token(|OpeningTag(s).value| + 2, DollarQuote(OpeningTag(s).value))
      else if Starts2(s, '-', '-') then Token(2, LineComment)
      else if Starts2(s, '/', '*') then Token(2, BlockComment(1))
      else Token(1, Plain)
  }

  /** The mode after exactly `n` characters, when a token ends there. */
  function ModeAfter(mode: Mode, s: string, n: nat): Option<Mode>
    decreases |s|
  {
    if n == 0 then Some(mode)
    else if s == "" || Next(mode, s).length > n then None
    else ModeAfter(Next(mode, s).mode, s[Next(mode, s).length..], n - Next(mode, s).length)
  }

  // ---------------------------------------------------------------------------
  // Pieces between separators
  // ---------------------------------------------------------------------------

  predicate AtSeparator(mode: Mode, s: string) { mode.Plain? && Starts(s, ';') }

  /** The text between separators; `current` is the beginning of the first piece. */
  function Pieces(mode: Mode, current: string, s: string): (ps: seq<string>)
    ensures |ps| > 0
    decreases |s|
  {
    if s == "" then [current]
    else if AtSeparator(mode, s) then [current] + Pieces(Plain, "", s[1..])
    else
      var t := Next(mode, s);
      Pieces(t.mode, current + s[..t.length], s[t.length..])
  }

  function TrimmedNonempty(ps: seq<string>): seq<string> {
    if ps == [] then []
    else TrimmedNonempty(ps[..|ps| - 1]) + (if Trim(Last(ps)) == "" then [] else [Trim(Last(ps))])
  }

  datatype SplitResult = SplitResult(complete: seq<string>, remainder: string)

  function ResultOf(ps: seq<string>): SplitResult
    requires ps != []
  {
    SplitResult(TrimmedNonempty(Front(ps)), TrimStart(Last(ps)))
  }

  function Split(input: string): SplitResult {
    ResultOf(Pieces(Plain, "", input))
  }

  // ---------------------------------------------------------------------------
  // The pieces are the input, cut at the separators in plain mode
  // ---------------------------------------------------------------------------

  function Join(ps: seq<string>): string
    requires ps != []
  {
    if |ps| == 1 then ps[0] else ps[0] + ";" + Join(ps[1..])
  }

  /** Is there a separator at offset `p` of the joined pieces? */
  predicate CutAt(ps: seq<string>, p: int) {
    |ps| > 1 && (p == |ps[0]| || CutAt(ps[1..], p - |ps[0]| - 1))
  }

  /** A semicolon that the lexer meets in plain mode. */
  predicate IsSeparator(mode: Mode, s: string, p: int) {
    0 <= p < |s| && s[p] == ';' && ModeAfter(mode, s, p) == Some(Plain)
  }

  lemma PiecesStep(mode: Mode, current: string, s: string, t: Token, tail: string)
    requires s != "" && !AtSeparator(mode, s) && t == Next(mode, s) && tail == s[t.length..]
    ensures Pieces(mode, current, s) == Pieces(t.mode, current + s[..t.length], tail)
  {}

  lemma JoinCons(p: string, ps: seq<string>, tail: string)
    requires ps != [] && Join(ps) == "" + tail
    ensures Join([p] + ps) == p + (";" + tail)
  {
    assert ([p] + ps)[1..] == ps;
    AppendEmpty(tail);
    AppendAssoc(p, ";", tail);
  }

  lemma {:induction false} PiecesJoin(mode: Mode, current: string, s: string)
    ensures Join(Pieces(mode, current, s)) == current + s
    decreases |s|
  {
    if s == "" {
    } else if AtSeparator(mode, s) {
      var tail := s[1..];
      PiecesJoin(Plain, "", tail);
      JoinCons(current, Pieces(Plain, "", tail), tail);
      assert s == ";" + tail;
    } else {
      var t := Next(mode, s);
      var head, tail := s[..t.length], s[t.length..];
      PiecesStep(mode, current, s, t, tail);
      PiecesJoin(t.mode, current + head, tail);
      SplitAndAppend(current, s, t.length);
    }
  }

  lemma SplitAndAppend(current: string, s: string, n: nat)
    requires n <= |s|
    ensures current + s[..n] + s[n..] == current + s
  {
    assert s[..n] + s[n..] == s;
    AppendAssoc(current, s[..n], s[n..]);
  }

  lemma {:induction false} NoCutInside(mode: Mode, current: string, s: string, p: nat)
    requires p < |current|
    ensures !CutAt(Pieces(mode, current, s), p)
    decreases |s|
  {
    if s == "" {
    } else if AtSeparator(mode, s) {
      var ps := Pieces(Plain, "", s[1..]);
      assert ([current] + ps)[1..] == ps;
      NegativeIsNoCut(ps, p - |current| - 1);
    } else {
      var t := Next(mode, s);
      NoCutInside(t.mode, current + s[..t.length], s[t.length..], p);
    }
  }

  lemma {:induction false} NegativeIsNoCut(ps: seq<string>, p: int)
    requires p < 0
    ensures !CutAt(ps, p)
  {
    if |ps| > 1 {
      NegativeIsNoCut(ps[1..], p - |ps[0]| - 1);
    }
  }

  lemma SeparatorStep(mode: Mode, s: string, t: Token, tail: string, p: nat)
    requires s != "" && t == Next(mode, s) && t.length <= p && tail == s[t.length..]
    ensures IsSeparator(mode, s, p) <==> IsSeparator(t.mode, tail, p - t.length)
  {
    assert p < |s| ==> s[p] == tail[p - t.length];
  }

  lemma CutsInToken(mode: Mode, current: string, s: string, p: nat)
    requires s != "" && !AtSeparator(mode, s) && p < Next(mode, s).length
    ensures !CutAt(Pieces(mode, current, s), |current| + p) && !IsSeparator(mode, s, p)
  {
    var t := Next(mode, s);
    NoCutInside(t.mode, current + s[..t.length], s[t.length..], |current| + p);
  }

  lemma CutsBehindSeparator(current: string, s: string, tail: string, p: nat)
    requires AtSeparator(Plain, s) && tail == s[1..]
    ensures CutAt(Pieces(Plain, current, s), |current| + p) <==> p == 0 || CutAt(Pieces(Plain, "", tail), p - 1)
    ensures IsSeparator(Plain, s, p) <==> p == 0 || IsSeparator(Plain, tail, p - 1)
  {
    assert ([current] + Pieces(Plain, "", tail))[1..] == Pieces(Plain, "", tail);
  }

  /** The cuts are exactly the semicolons met in plain mode. */
  lemma {:induction false} CutsAreSeparators(mode: Mode, current: string, s: string, p: nat)
    ensures CutAt(Pieces(mode, current, s), |current| + p) <==> IsSeparator(mode, s, p)
    decreases |s|
  {
    if s == "" {
    } else if AtSeparator(mode, s) {
      CutsBehindSeparator(current, s, s[1..], p);
      if p > 0 {
        CutsAreSeparators(Plain, "", s[1..], p - 1);
      }
    } else {
      var t := Next(mode, s);
      if p < t.length {
        CutsInToken(mode, current, s, p);
      } else {
        PiecesStep(mode, current, s, t, s[t.length..]);
        SeparatorStep(mode, s, t, s[t.length..], p);
        CutsAreSeparators(t.mode, current + s[..t.length], s[t.length..], p - t.length);
      }
    }
  }

  /** The whole splitter: nothing but separators is taken out, and nothing but separators cuts. */
  lemma SplitIsExact(input: string)
    ensures Join(Pieces(Plain, "", input)) == input
    ensures forall p: nat :: CutAt(Pieces(Plain, "", input), p) <==> IsSeparator(Plain, input, p)
  {
    PiecesJoin(Plain, "", input);
    forall p: nat ensures CutAt(Pieces(Plain, "", input), p) <==> IsSeparator(Plain, input, p) {
      CutsAreSeparators(Plain, "", input, p);
    }
  }

  // ---------------------------------------------------------------------------
  // Looking ahead
  // ---------------------------------------------------------------------------

  /** A character that no token can be waiting for. */
  predicate IsNeutral(c: char) { IsWhitespace(c) || c == ';' }

  predicate NeutralStart(s: string) { s != "" ==> IsNeutral(s[0]) }

  /** The tag of an open dollar quote is made of tag characters. */
  predicate ValidMode(mode: Mode) {
    mode.DollarQuote? ==> forall i :: 0 <= i < |mode.tag| ==> IsTagChar(mode.tag[i])
  }

  lemma TagRunWithMore(s: string, v: string)
    requires NeutralStart(v) || TagRun(s) < |s|
    ensures TagRun(s + v) == TagRun(s)
  {
    if s == "" {
      assert s + v == v;
      assert v == "" || !IsTagChar(v[0]);
    } else if IsTagChar(s[0]) {
      assert (s + v)[1..] == s[1..] + v;
      TagRunWithMore(s[1..], v);
    }
  }

  lemma OpeningTagWithMore(s: string, v: string)
    requires s != "" && (NeutralStart(v) || TagRun(s[1..]) + 1 < |s|)
    ensures OpeningTag(s + v) == OpeningTag(s)
  {
    assert (s + v)[1..] == s[1..] + v;
    TagRunWithMore(s[1..], v);
    var n := TagRun(s[1..]);
    if Starts(s, '$') && n + 1 < |s| {
      assert (s + v)[1..n + 1] == s[1..n + 1];
    }
  }

  lemma StartsWithMore(s: string, v: string, p: string)
    requires |p| <= |s|
    ensures StartsWith(s + v, p) <==> StartsWith(s, p)
  {
    if |p| <= |s| {
      assert (s + v)[..|p|] == s[..|p|];
    }
  }

  /** A pattern without neutral characters cannot reach into what follows. */
  lemma StartsWithNeutral(s: string, v: string, p: string)
    requires NeutralStart(v) && forall i :: 0 <= i < |p| ==> !IsNeutral(p[i])
    ensures StartsWith(s + v, p) <==> StartsWith(s, p)
  {
    if |p| <= |s| {
      StartsWithMore(s, v, p);
    } else if v != "" {
      assert (s + v)[|s|] == v[0];
      assert p[|s|] != (s + v)[|s|];
    }
  }

  lemma Starts2Neutral(s: string, v: string, c: char, d: char)
    requires s != "" && NeutralStart(v) && !IsNeutral(d)
    ensures Starts2(s + v, c, d) <==> Starts2(s, c, d)
  {}

  /** The next token does not depend on what follows a neutral character. */
  lemma NextBeforeNeutral(mode: Mode, s: string, v: string)
    requires s != "" && NeutralStart(v) && ValidMode(mode)
    ensures Next(mode, s + v) == Next(mode, s)
    ensures ValidMode(Next(mode, s).mode)
  {
    match mode
    case LineComment =>
    case BlockComment(_) =>
      Starts2Neutral(s, v, '/', '*');
      Starts2Neutral(s, v, '*', '/');
    case SingleQuote => Starts2Neutral(s, v, '\'', '\'');
    case DoubleQuote => Starts2Neutral(s, v, '"', '"');
    case DollarQuote(tag) => StartsWithNeutral(s, v, "$" + tag + "$");
    case Plain =>
      OpeningTagWithMore(s, v);
      Starts2Neutral(s, v, '-', '-');
      Starts2Neutral(s, v, '/', '*');
  }

  // ---------------------------------------------------------------------------
  // Completed statements
  // ---------------------------------------------------------------------------

  /** The mode after all of `s`, when nothing in it continues into what follows. */
  function Walk(mode: Mode, s: string): Mode
    decreases |s|
  {
    if s == "" then mode else Walk(Next(mode, s).mode, s[Next(mode, s).length..])
  }

  /** `s` holds no separator. */
  predicate NoSeparator(mode: Mode, s: string)
    decreases |s|
  {
    s == "" || (!AtSeparator(mode, s) && NoSeparator(Next(mode, s).mode, s[Next(mode, s).length..]))
  }

  lemma TokenBeforeNeutral(mode: Mode, s: string, v: string, t: Token, tail: string)
    requires s != "" && NeutralStart(v) && ValidMode(mode) && t == Next(mode, s) && tail == s[t.length..]
    ensures s + v != "" && Next(mode, s + v) == t && (s + v)[t.length..] == tail + v && ValidMode(t.mode)
    ensures (s + v)[..t.length] == s[..t.length]
    ensures AtSeparator(mode, s + v) <==> AtSeparator(mode, s)
  {
    NextBeforeNeutral(mode, s, v);
  }

  lemma WalkStep(mode: Mode, s: string, t: Token, tail: string)
    requires s != "" && t == Next(mode, s) && tail == s[t.length..]
    ensures Walk(mode, s) == Walk(t.mode, tail)
    ensures NoSeparator(mode, s) <==> !AtSeparator(mode, s) && NoSeparator(t.mode, tail)
  {}

  /** Up to a neutral character the lexer behaves as if the text ended there. */
  lemma {:induction false} PiecesOfWalk(mode: Mode, current: string, s: string, v: string)
    requires ValidMode(mode) && NeutralStart(v) && NoSeparator(mode, s)
    ensures Pieces(mode, current, s + v) == Pieces(Walk(mode, s), current + s, v)
    ensures ValidMode(Walk(mode, s))
    decreases |s|
  {
    if s == "" {
      AppendEmpty(v);
      AppendEmpty(current);
    } else {
      var t := Next(mode, s);
      var head, tail := s[..t.length], s[t.length..];
      TokenBeforeNeutral(mode, s, v, t, tail);
      WalkStep(mode, s, t, tail);
      PiecesStep(mode, current, s + v, t, tail + v);
      PiecesOfWalk(t.mode, current + head, tail, v);
      AppendAssoc(current, head, tail);
      assert head + tail == s;
    }
  }

  lemma {:induction false} WalkAppend(mode: Mode, s: string, v: string)
    requires ValidMode(mode) && NeutralStart(v)
    ensures Walk(mode, s + v) == Walk(Walk(mode, s), v)
    ensures NoSeparator(mode, s + v) <==> NoSeparator(mode, s) && NoSeparator(Walk(mode, s), v)
    decreases |s|
  {
    if s == "" {
      AppendEmpty(v);
    } else {
      var t := Next(mode, s);
      var tail := s[t.length..];
      TokenBeforeNeutral(mode, s, v, t, tail);
      WalkStep(mode, s, t, tail);
      WalkStep(mode, s + v, t, tail + v);
      WalkAppend(t.mode, tail, v);
    }
  }

  /** A text that can stand before a separator: no separator inside, plain mode at its end. */
  predicate IsStatement(s: string) { NoSeparator(Plain, s) && Walk(Plain, s).Plain? }

  /** The first piece is the beginning plus a stretch without separators that ends in plain mode. */
  lemma {:induction false} FirstPiece(mode: Mode, current: string, s: string) returns (y: string, v: string)
    requires ValidMode(mode) && |Pieces(mode, current, s)| > 1
    ensures s == y + ";" + v && NoSeparator(mode, y) && Walk(mode, y).Plain?
    ensures Pieces(mode, current, s) == [current + y] + Pieces(Plain, "", v)
    decreases |s|
  {
    if AtSeparator(mode, s) {
      y, v := "", s[1..];
      AppendEmpty(current);
      assert s == ";" + v;
    } else {
      var t := Next(mode, s);
      var head, tail := s[..t.length], s[t.length..];
      PiecesStep(mode, current, s, t, tail);
      NextBeforeNeutral(mode, s, "");
      AppendEmpty(s);
      var z;
      z, v := FirstPiece(t.mode, current + head, tail);
      y := head + z;
      AppendAssoc(current, head, z);
      FirstToken(mode, s, t, head, z, v);
    }
  }

  lemma FirstToken(mode: Mode, s: string, t: Token, head: string, z: string, v: string)
    requires s != "" && ValidMode(mode) && !AtSeparator(mode, s) && t == Next(mode, s) && head == s[..t.length]
    requires s[t.length..] == z + ";" + v && NoSeparator(t.mode, z) && Walk(t.mode, z).Plain?
    ensures s == head + z + ";" + v
    ensures NoSeparator(mode, head + z) && Walk(mode, head + z).Plain?
  {
    var y := head + z;
    assert s == y + (";" + v);
    assert y != "" by { assert |head| > 0; }
    NextBeforeNeutral(mode, y, ";" + v);
    assert y[t.length..] == z;
    WalkStep(mode, y, t, z);
  }

  lemma {:induction false} PiecesAreStatements(s: string, k: nat)
    requires k < |Pieces(Plain, "", s)| - 1
    ensures IsStatement(Pieces(Plain, "", s)[k])
    decreases |s|
  {
    var y, v := FirstPiece(Plain, "", s);
    AppendEmpty(y);
    if k > 0 {
      assert s == y + ";" + v;
      PiecesAreStatements(v, k - 1);
    }
  }

  // ---------------------------------------------------------------------------
  // White space
  // ---------------------------------------------------------------------------

  lemma {:induction false} TrimStartParts(s: string) returns (w: string)
    ensures s == w + TrimStart(s) && AllWhitespace(w)
    ensures TrimStart(s) != "" ==> !IsWhitespace(TrimStart(s)[0])
  {
    if s != "" && IsWhitespace(s[0]) {
      var u := TrimStartParts(s[1..]);
      w := [s[0]] + u;
      AppendAssoc([s[0]], u, TrimStart(s));
      assert s == [s[0]] + s[1..];
    } else {
      w := "";
      AppendEmpty(s);
    }
  }

  lemma {:induction false} TrimEndParts(s: string) returns (w: string)
    ensures s == TrimEnd(s) + w && AllWhitespace(w)
    ensures TrimEnd(s) != "" ==> !IsWhitespace(Last(TrimEnd(s))) && TrimEnd(s)[0] == s[0]
  {
    if s != "" && IsWhitespace(s[|s| - 1]) {
      var u := TrimEndParts(s[..|s| - 1]);
      w := u + [s[|s| - 1]];
      AppendAssoc(TrimEnd(s), u, [s[|s| - 1]]);
      assert s == s[..|s| - 1] + [s[|s| - 1]];
    } else {
      w := "";
      AppendEmpty(s);
    }
  }

  lemma TrimParts(s: string) returns (w: string, w': string)
    ensures s == w + (Trim(s) + w') && AllWhitespace(w) && AllWhitespace(w')
    ensures Trim(s) != "" ==> !IsWhitespace(Trim(s)[0]) && !IsWhitespace(Last(Trim(s)))
  {
    w := TrimStartParts(s);
    w' := TrimEndParts(TrimStart(s));
  }

  /** Text that is already trimmed survives a trailing line break. */
  lemma TrimLineBreak(s: string)
    requires s != "" && !IsWhitespace(s[0]) && !IsWhitespace(Last(s))
    ensures Trim(s + "\n") == s
  {
    assert TrimStart(s + "\n") == s + "\n";
    assert (s + "\n")[..|s|] == s;
    assert TrimEnd(s + "\n") == TrimEnd(s);
  }

  lemma {:induction false} PlainSkipsWhitespace(current: string, w: string, z: string)
    requires AllWhitespace(w)
    ensures Walk(Plain, w + z) == Walk(Plain, z)
    ensures NoSeparator(Plain, w + z) <==> NoSeparator(Plain, z)
    ensures Pieces(Plain, current, w + z) == Pieces(Plain, current + w, z)
    decreases w
  {
    if w == "" {
      AppendEmpty(z);
      AppendEmpty(current);
    } else {
      var s, t := w + z, Token(1, Plain);
      assert s[1..] == w[1..] + z;
      WalkStep(Plain, s, t, w[1..] + z);
      PiecesStep(Plain, current, s, t, w[1..] + z);
      PlainSkipsWhitespace(current + s[..1], w[1..], z);
      AppendAssoc(current, s[..1], w[1..]);
      assert w == s[..1] + w[1..];
    }
  }

  /** White space ends at most a line comment. */
  lemma {:induction false} WalkWhitespace(mode: Mode, w: string)
    requires AllWhitespace(w) && ValidMode(mode)
    ensures Walk(mode, w) == mode || (mode.LineComment? && Walk(mode, w).Plain?)
    decreases w
  {
    if w != "" {
      var t := Next(mode, w);
      assert t.length == 1 && (t.mode == mode || (mode.LineComment? && t.mode.Plain?));
      WalkStep(mode, w, t, w[1..]);
      WalkWhitespace(t.mode, w[1..]);
    }
  }

  // ---------------------------------------------------------------------------
  // Splitting is stable
  // ---------------------------------------------------------------------------

  lemma TrimmedStatement(x: string) returns (mode: Mode)
    requires IsStatement(x)
    ensures mode == Walk(Plain, Trim(x)) && (mode.Plain? || mode.LineComment?)
    ensures NoSeparator(Plain, Trim(x))
  {
    var s := Trim(x);
    var w, w' := TrimParts(x);
    mode := Walk(Plain, s);
    PlainSkipsWhitespace("", w, s + w');
    WalkAppend(Plain, s, w');
    PiecesOfWalk(Plain, "", s, "");
    WalkWhitespace(mode, w');
  }

  lemma PiecesOfLineBreak(mode: Mode, current: string)
    requires mode.Plain? || mode.LineComment?
    ensures Pieces(mode, current, "\n;") == [current + "\n", ""]
  {
    var s := "\n;";
    assert s[..1] == "\n" && s[1..] == ";" && ";"[1..] == "";
    assert s[0] == '\n' && !Starts(s, '$') && !Starts2(s, '-', '-') && !Starts2(s, '/', '*') && !Starts(s, ';');
    PiecesStep(mode, current, s, Token(1, Plain), ";");
    assert Pieces(Plain, current + "\n", ";") == [current + "\n"] + Pieces(Plain, "", "");
  }

  lemma SingleTrimmed(p: string)
    requires Trim(p) != ""
    ensures TrimmedNonempty([p]) == [Trim(p)]
  {
    assert [p][..0] == [];
  }

  /** A completed statement, followed by a line break and a separator, splits into itself. */
  lemma StatementResplits(x: string)
    requires IsStatement(x) && Trim(x) != ""
    ensures Split(Trim(x) + "\n;") == SplitResult([Trim(x)], "")
  {
    var s := Trim(x);
    var w, w' := TrimParts(x);
    var mode := TrimmedStatement(x);
    PiecesOfWalk(Plain, "", s, "\n;");
    AppendEmpty(s);
    PiecesOfLineBreak(mode, s);
    TrimLineBreak(s);
    SingleTrimmed(s + "\n");
    assert Front([s + "\n", ""]) == [s + "\n"];
  }

  /** Without the line break this works exactly when the statement does not end in a line comment. */
  lemma ResplitsWithoutLineBreak(x: string)
    requires IsStatement(x) && Trim(x) != ""
    ensures Split(Trim(x) + ";") == SplitResult([Trim(x)], "") <==> Walk(Plain, Trim(x)).Plain?
  {
    var s := Trim(x);
    var w, w' := TrimParts(x);
    var mode := TrimmedStatement(x);
    PiecesOfWalk(Plain, "", s, ";");
    AppendEmpty(s);
    assert ";"[..1] == ";" && ";"[1..] == "";
    if mode.Plain? {
      assert Pieces(mode, s, ";") == [s] + Pieces(Plain, "", "");
      TrimOfTrimmed(s);
      SingleTrimmed(s);
      assert Front([s, ""]) == [s];
    } else {
      PiecesStep(mode, s, ";", Token(1, LineComment), "");
      assert Front([s + ";"]) == [];
    }
  }

  lemma TrimOfTrimmed(s: string)
    requires s != "" && !IsWhitespace(s[0]) && !IsWhitespace(Last(s))
    ensures Trim(s) == s
  {}

  lemma {:induction false} TrimmedComesFrom(ps: seq<string>, k: nat) returns (j: nat)
    requires k < |TrimmedNonempty(ps)|
    ensures j < |ps| && TrimmedNonempty(ps)[k] == Trim(ps[j]) != ""
  {
    var front := TrimmedNonempty(ps[..|ps| - 1]);
    if k < |front| {
      j := TrimmedComesFrom(ps[..|ps| - 1], k);
    } else {
      j := |ps| - 1;
    }
  }

  /** Every statement the splitter completes splits into itself again. */
  lemma CompletedResplits(input: string, k: nat)
    requires k < |Split(input).complete|
    ensures var s := Split(input).complete[k];
            && Split(s + "\n;") == SplitResult([s], "")
            && (Split(s + ";") == SplitResult([s], "") <==> Walk(Plain, s).Plain?)
  {
    var ps := Pieces(Plain, "", input);
    var j := TrimmedComesFrom(Front(ps), k);
    PiecesAreStatements(input, j);
    StatementResplits(ps[j]);
    ResplitsWithoutLineBreak(ps[j]);
  }

  lemma LineCommentPiece(current: string, tail: string, rest: string)
    requires tail == "--x" + rest
    ensures Pieces(Plain, current, tail) == Pieces(LineComment, current + "--x", rest)
    ensures Walk(Plain, tail) == Walk(LineComment, rest)
  {
    var afterDashes := "x" + rest;
    assert tail[..2] == "--" && tail[2..] == afterDashes;
    assert afterDashes[..1] == "x" && afterDashes[1..] == rest;
    PiecesStep(Plain, current, tail, Token(2, LineComment), afterDashes);
    PiecesStep(LineComment, current + "--", afterDashes, Token(1, LineComment), rest);
    WalkStep(Plain, tail, Token(2, LineComment), afterDashes);
    WalkStep(LineComment, afterDashes, Token(1, LineComment), rest);
    AppendAssoc(current, "--", "x");
    assert "--" + "x" == "--x";
  }

  lemma TrimmedComment(s: string)
    requires s == "--x\n;"
    ensures Split(s) == SplitResult(["--x"], "")
  {
    assert s == "--x" + "\n;" && "" + "--x" == "--x";
    LineCommentPiece("", s, "\n;");
    assert "\n;"[..1] == "\n" && "\n;"[1..] == ";" && ";"[1..] == "";
    PiecesStep(LineComment, "--x", "\n;", Token(1, Plain), ";");
    assert Pieces(Plain, "--x\n", ";") == ["--x\n"] + Pieces(Plain, "", "");
    TrimLineBreak("--x");
    TrimOfTrimmed("--x");
    SingleTrimmed("--x\n");
    assert Front(["--x\n", ""]) == ["--x\n"];
  }

  lemma SwallowedSemicolon(s: string)
    requires s == "--x;"
    ensures Split(s) == SplitResult([], s)
  {
    assert s == "--x" + ";" && "" + "--x" == "--x" && ";"[1..] == "" && ";"[..1] == ";";
    LineCommentPiece("", s, ";");
    PiecesStep(LineComment, "--x", ";", Token(1, LineComment), "");
    assert Front(["--x;"]) == [];
  }

  /** Such a statement: a comment that ended at a line break, which trimming took away. */
  lemma TrimmedCommentSwallowsSemicolon()
    ensures Split("--x\n;") == SplitResult(["--x"], "")
    ensures Walk(Plain, "--x").LineComment?
    ensures Split("--x;") == SplitResult([], "--x;")
  {
    TrimmedComment("--x\n;");
    assert "--x" + "" == "--x";
    LineCommentPiece("", "--x", "");
    SwallowedSemicolon("--x;");
  }

  // ---------------------------------------------------------------------------
  // Splitting composes
  // ---------------------------------------------------------------------------

  lemma PiecesHead(mode: Mode, current: string, s: string) returns (k: nat, next: Mode)
    requires s != "" && !AtSeparator(mode, s)
    ensures 0 < k <= |s| && Pieces(mode, current, s) == Pieces(next, current + s[..k], s[k..])
  {
    var t := Next(mode, s);
    k, next := t.length, t.mode;
  }

  lemma {:induction false} NoSemicolonOnePiece(mode: Mode, current: string, s: string)
    requires forall i :: 0 <= i < |s| ==> s[i] != ';'
    ensures Pieces(mode, current, s) == [current + s]
    decreases |s|
  {
    if s == "" {
      AppendEmpty(current);
    } else {
      var k, next := PiecesHead(mode, current, s);
      NoSemicolonOnePiece(next, current + s[..k], s[k..]);
      AppendAssoc(current, s[..k], s[k..]);
      assert s[..k] + s[k..] == s;
    }
  }

  /** A dollar quote stays open when its closing tag does not fit any more. */
  lemma {:induction false} DollarStaysOpen(tag: string, current: string, s: string)
    requires |s| < |tag| + 2
    ensures Pieces(DollarQuote(tag), current, s) == [current + s]
    decreases |s|
  {
    if s == "" {
      AppendEmpty(current);
    } else {
      PiecesStep(DollarQuote(tag), current, s, Token(1, DollarQuote(tag)), s[1..]);
      DollarStaysOpen(tag, current + s[..1], s[1..]);
      AppendAssoc(current, s[..1], s[1..]);
      assert s[..1] + s[1..] == s;
    }
  }

  /** Outside plain mode something other than white space has been read. */
  predicate Consistent(mode: Mode, current: string) { mode.Plain? || !AllWhitespace(current) }

  /** The text after the last separator is white space. */
  predicate EndsClean(mode: Mode, current: string, s: string) {
    AllWhitespace(Last(Pieces(mode, current, s)))
  }

  lemma NotClean(current: string, s: string)
    requires !AllWhitespace(current) || !AllWhitespace(s)
    ensures !AllWhitespace(current + s)
  {
    if !AllWhitespace(current) {
      var i :| 0 <= i < |current| && !IsWhitespace(current[i]);
      assert (current + s)[i] == current[i];
    } else {
      var i :| 0 <= i < |s| && !IsWhitespace(s[i]);
      assert (current + s)[|current| + i] == s[i];
    }
  }

  lemma OneCharacterPiece(mode: Mode, current: string, a: string)
    requires |a| == 1 && !mode.Plain?
    ensures Pieces(mode, current, a) == [current + a]
  {
    PiecesStep(mode, current, a, Next(mode, a), "");
    assert a[..1] == a;
  }

  lemma QuotedWithMore(mode: Mode, current: string, a: string, b: string)
    requires a != "" && !mode.Plain? && Consistent(mode, current) && EndsClean(mode, current, a)
    ensures Next(mode, a + b) == Next(mode, a)
  {
    NotClean(current, a);
    if mode.DollarQuote? && |a| < |mode.tag| + 2 {
      DollarStaysOpen(mode.tag, current, a);
    } else if |a| == 1 {
      OneCharacterPiece(mode, current, a);
    } else {
      if mode.DollarQuote? {
        StartsWithMore(a, b, "$" + mode.tag + "$");
      }
    }
  }

  lemma PlainWithMore(current: string, a: string, b: string)
    requires a != "" && EndsClean(Plain, current, a)
    ensures Next(Plain, a + b) == Next(Plain, a)
  {
    if (forall i :: 0 <= i < |a| ==> a[i] != ';') && !AllWhitespace(a) {
      NoSemicolonOnePiece(Plain, current, a);
      NotClean(current, a);
    }
    if TagRun(a[1..]) + 1 < |a| {
      OpeningTagWithMore(a, b);
    } else {
      assert forall i :: 0 < i < |a| ==> a[i] == a[1..][i - 1];
    }
  }

  /** Behind a clean end the splitter starts afresh. */
  lemma {:induction false} PiecesCompose(mode: Mode, current: string, a: string, b: string)
    requires Consistent(mode, current) && EndsClean(mode, current, a)
    ensures var ps := Pieces(mode, current, a);
            Pieces(mode, current, a + b) == Front(ps) + Pieces(Plain, Last(ps), b)
    decreases |a|
  {
    if a == "" {
      AppendEmpty(b);
      AppendEmpty(Pieces(Plain, current, b));
    } else if AtSeparator(mode, a) {
      var ps := Pieces(Plain, "", a[1..]);
      assert Last([current] + ps) == Last(ps) && Front([current] + ps) == [current] + Front(ps);
      PiecesCompose(Plain, "", a[1..], b);
      assert (a + b)[1..] == a[1..] + b;
      AppendAssoc([current], Front(ps), Pieces(Plain, Last(ps), b));
    } else {
      var t := Next(mode, a);
      var head, tail := a[..t.length], a[t.length..];
      NextWithMore(mode, current, a, b);
      PiecesStep(mode, current, a, t, tail);
      PiecesStepWithMore(mode, current, a, b, t, head, tail);
      ConsistentStep(mode, current, a, t, head);
      PiecesCompose(t.mode, current + head, tail, b);
    }
  }

  lemma NextWithMore(mode: Mode, current: string, a: string, b: string)
    requires a != "" && Consistent(mode, current) && EndsClean(mode, current, a)
    ensures Next(mode, a + b) == Next(mode, a)
  {
    if mode.Plain? {
      PlainWithMore(current, a, b);
    } else {
      QuotedWithMore(mode, current, a, b);
    }
  }

  lemma PiecesStepWithMore(mode: Mode, current: string, a: string, b: string, t: Token, head: string, tail: string)
    requires a != "" && !AtSeparator(mode, a) && t == Next(mode, a) == Next(mode, a + b)
    requires head == a[..t.length] && tail == a[t.length..]
    ensures Pieces(mode, current, a + b) == Pieces(t.mode, current + head, tail + b)
  {
    assert (a + b)[t.length..] == tail + b && (a + b)[..t.length] == head;
    PiecesStep(mode, current, a + b, t, tail + b);
  }

  lemma ConsistentStep(mode: Mode, current: string, a: string, t: Token, head: string)
    requires a != "" && Consistent(mode, current) && t == Next(mode, a) && head == a[..t.length]
    ensures Consistent(t.mode, current + head)
  {
    if !t.mode.Plain? {
      if mode.Plain? {
        assert !IsWhitespace(head[0]);
      }
      NotClean(current, head);
    }
  }

  /** The beginning of the first piece is only carried along. */
  lemma {:induction false} PiecesPrefix(mode: Mode, u: string, current: string, s: string)
    ensures var ps := Pieces(mode, current, s);
            Pieces(mode, u + current, s) == [u + ps[0]] + ps[1..]
    decreases |s|
  {
    if s == "" {
    } else if AtSeparator(mode, s) {
      assert ([current] + Pieces(Plain, "", s[1..]))[1..] == Pieces(Plain, "", s[1..]);
    } else {
      var t := Next(mode, s);
      PiecesStep(mode, current, s, t, s[t.length..]);
      PiecesStep(mode, u + current, s, t, s[t.length..]);
      PiecesPrefix(t.mode, u, current + s[..t.length], s[t.length..]);
      AppendAssoc(u, current, s[..t.length]);
    }
  }

  lemma {:induction false} TrimStartSkips(w: string, s: string)
    requires AllWhitespace(w)
    ensures TrimStart(w + s) == TrimStart(s)
    decreases w
  {
    if w == "" {
      AppendEmpty(s);
    } else {
      assert (w + s)[1..] == w[1..] + s;
      TrimStartSkips(w[1..], s);
    }
  }

  lemma {:induction false} TrimmedAppend(xs: seq<string>, ys: seq<string>)
    ensures TrimmedNonempty(xs + ys) == TrimmedNonempty(xs) + TrimmedNonempty(ys)
    decreases |ys|
  {
    if ys == [] {
      AppendEmpty(xs);
    } else {
      var front := ys[..|ys| - 1];
      assert (xs + ys)[..|xs + ys| - 1] == xs + front;
      TrimmedAppend(xs, front);
    }
  }

  lemma TrimmedHead(p: string, q: string, rest: seq<string>)
    requires Trim(p) == Trim(q)
    ensures TrimmedNonempty([p] + rest) == TrimmedNonempty([q] + rest)
  {
    TrimmedAppend([p], rest);
    TrimmedAppend([q], rest);
    assert [p][..0] == [] == [q][..0];
  }

  lemma WhitespaceIsTrimmedAway(s: string)
    ensures TrimStart(s) == "" <==> AllWhitespace(s)
  {
    var w := TrimStartParts(s);
    if TrimStart(s) == "" {
      AppendEmpty(w);
    } else {
      assert s[|w|] == TrimStart(s)[0];
    }
  }

  /** White space in front of the first piece changes no result. */
  lemma ResultSkipsWhitespace(w: string, s: string)
    requires AllWhitespace(w)
    ensures ResultOf(Pieces(Plain, w, s)) == Split(s)
  {
    var ps := Pieces(Plain, "", s);
    PiecesPrefix(Plain, w, "", s);
    AppendEmpty(w);
    TrimStartSkips(w, ps[0]);
    var qs := [w + ps[0]] + ps[1..];
    if |ps| > 1 {
      assert Last(qs) == Last(ps);
      assert Front(qs) == [w + ps[0]] + ps[1..|ps| - 1];
      assert Front(ps) == [ps[0]] + ps[1..|ps| - 1];
      TrimmedHead(w + ps[0], ps[0], ps[1..|ps| - 1]);
    } else {
      assert Front(qs) == [] == Front(ps);
    }
  }

  /** Input whose remainder is empty can be split apart from whatever follows. */
  lemma SplitComposes(a: string, b: string)
    requires Split(a).remainder == ""
    ensures Split(a + b) == SplitResult(Split(a).complete + Split(b).complete, Split(b).remainder)
  {
    var ps := Pieces(Plain, "", a);
    WhitespaceIsTrimmedAway(Last(ps));
    PiecesCompose(Plain, "", a, b);
    var qs := Pieces(Plain, Last(ps), b);
    ResultSkipsWhitespace(Last(ps), b);
    assert Front(Front(ps) + qs) == Front(ps) + Front(qs);
    TrimmedAppend(Front(ps), Front(qs));
  }

  // ---------------------------------------------------------------------------
  // Validation of interactive input
  // ---------------------------------------------------------------------------

  datatype Validation = Valid | Incomplete

  lemma BlankExactly(p: string)
    ensures Trim(p) == "" <==> AllWhitespace(p)
  {
    var w, w' := TrimParts(p);
    if Trim(p) != "" {
      assert p[|w|] == Trim(p)[0];
    }
  }

  /** Of the pieces in front of the last one those that are not blank are completed, trimmed and in order. */
  lemma CompletedExactly(ps: seq<string>, p: string, more: seq<string>)
    ensures TrimmedNonempty([]) == []
    ensures TrimmedNonempty([p]) == if AllWhitespace(p) then [] else [Trim(p)]
    ensures TrimmedNonempty(ps + more) == TrimmedNonempty(ps) + TrimmedNonempty(more)
  {
    BlankExactly(p);
    assert [p][..0] == [];
    TrimmedAppend(ps, more);
  }

  /** The remainder is the last piece without the white space it begins with. */
  lemma RemainderExactly(input: string) returns (w: string)
    ensures var r := Split(input).remainder;
            && Last(Pieces(Plain, "", input)) == w + r && AllWhitespace(w) && (r != "" ==> !IsWhitespace(r[0]))
    ensures Split(input).complete == TrimmedNonempty(Front(Pieces(Plain, "", input)))
  {
    w := TrimStartParts(Last(Pieces(Plain, "", input)));
  }

  /** Empty input, dot commands and the help request bypass the splitter. */
  predicate IsCommand(input: string) {
    Trim(input) == "" || StartsWith(Trim(input), ".") || Trim(input) == "?"
  }

  function Validate(input: string): Validation {
    if IsCommand(input) then Valid
    else if Trim(Split(input).remainder) == "" then Valid
    else Incomplete
  }

  lemma TrimOf(input: string, w: string, core: string, w': string)
    requires input == w + (core + w') && AllWhitespace(w) && AllWhitespace(w')
    requires core != "" && !IsWhitespace(core[0]) && !IsWhitespace(Last(core))
    ensures Trim(input) == core
  {
    TrimStartSkips(w, core + w');
    TrimEndSkips(core, w');
  }

  lemma {:induction false} TrimEndSkips(core: string, w: string)
    requires AllWhitespace(w) && core != "" && !IsWhitespace(Last(core))
    ensures TrimEnd(core + w) == core
    decreases |w|
  {
    if w == "" {
      AppendEmpty(core);
    } else {
      assert (core + w)[..|core + w| - 1] == core + w[..|w| - 1];
      TrimEndSkips(core, w[..|w| - 1]);
    }
  }

  /**
   What the shell accepts at once: blank lines, a question mark, lines that begin with a dot,
   and otherwise exactly the input that leaves no remainder. White space around it does not matter.
   */
  lemma ValidatesExactly(input: string, w: string, core: string, w': string)
    requires input == w + (core + w') && AllWhitespace(w) && AllWhitespace(w')
    requires core != "" ==> !IsWhitespace(core[0]) && !IsWhitespace(Last(core))
    ensures Validate(input).Valid? <==> core == "" || core == "?" || core[0] == '.' || Split(input).remainder == ""
  {
    if core == "" {
      BlankExactly(input);
    } else {
      TrimOf(input, w, core, w');
      if !IsCommand(input) {
        AcceptedLosesNothing(input, "");
      }
    }
  }

  /** Accepted input is completely consumed: what follows it is split as if it stood alone. */
  lemma AcceptedLosesNothing(input: string, more: string)
    requires !IsCommand(input)
    ensures Validate(input).Valid? <==> Split(input).remainder == ""
    ensures Validate(input).Valid? ==>
              Split(input + more) == SplitResult(Split(input).complete + Split(more).complete, Split(more).remainder)
  {
    var r := Split(input).remainder;
    var w := TrimStartParts(Last(Pieces(Plain, "", input)));
    var u := TrimEndParts(r);
    AppendEmpty(u);
    assert TrimStart(r) == r;
    if r == "" {
      SplitComposes(input, more);
    }
  }

  // ---------------------------------------------------------------------------
  // The splitter's loop
  // ---------------------------------------------------------------------------

  /** The loop's variables for the lexical state; at most one is set. */
  datatype Flags = Flags(singleQuote: bool, doubleQuote: bool, lineComment: bool, depth: nat, tag: Option<string>)

  const NO_FLAGS := Flags(false, false, false, 0, None)

  function ModeOf(f: Flags): Mode {
    if f.lineComment then LineComment
    else if f.depth > 0 then BlockComment(f.depth)
    else if f.singleQuote then SingleQuote
    else if f.doubleQuote then DoubleQuote
    else if f.tag.Some? then DollarQuote(f.tag.value)
    else Plain
  }

  predicate Exclusive(f: Flags) {
    match ModeOf(f)
    case Plain => f == NO_FLAGS
    case LineComment => f == NO_FLAGS.(lineComment := true)
    case BlockComment(depth) => f == NO_FLAGS.(depth := depth)
    case SingleQuote => f == NO_FLAGS.(singleQuote := true)
    case DoubleQuote => f == NO_FLAGS.(doubleQuote := true)
    case DollarQuote(tag) => f == NO_FLAGS.(tag := Some(tag))
  }

  method ScanTag(chars: string, from: nat) returns (j: nat)
    requires from <= |chars|
    ensures j == from + TagRun(chars[from..])
  {
    j := from;
    while j < |chars| && IsTagChar(chars[j])
      invariant from <= j <= |chars|
      invariant from + TagRun(chars[from..]) == j + TagRun(chars[j..])
    {
      assert chars[j..][1..] == chars[j + 1..];
      j := j + 1;
    }
  }

  /** Does the dollar sign at `i` begin the closing tag? */
  method TagMatches(chars: string, i: nat, tag: string) returns (matches: bool)
    requires i < |chars| && chars[i] == '$'
    ensures matches <==> StartsWith(chars[i..], "$" + tag + "$")
  {
    var n := |tag|;
    ghost var closing := "$" + tag + "$";
    assert closing[n + 1] == '$' && forall k :: 0 <= k < n ==> closing[k + 1] == tag[k];
    matches := i + 1 + n < |chars| && chars[i + 1 + n] == '$';
    if matches {
      for k := 0 to n
        invariant forall l :: 0 <= l < k ==> chars[i + 1 + l] == tag[l]
      {
        if chars[i + 1 + k] != tag[k] {
          assert chars[i..][k + 1] != closing[k + 1];
          return false;
        }
      }
      assert chars[i..][..n + 2] == closing;
    } else if i + 1 + n < |chars| {
      assert chars[i..][n + 1] != closing[n + 1];
    }
  }

  predicate Peek(chars: string, i: nat, c: char) { i < |chars| && chars[i] == c }

  /** Reads inside a comment or a quotation. */
  method ReadQuoted(chars: string, i: nat, f: Flags) returns (j: nat, f': Flags)
    requires i < |chars| && Exclusive(f) && !ModeOf(f).Plain?
    ensures j > i && Exclusive(f') && Token(j - i, ModeOf(f')) == Next(ModeOf(f), chars[i..])
  {
    var c := chars[i];
    j, f' := i + 1, f;
    if f.lineComment {
      if c == '\n' {
        f' := f.(lineComment := false);
      }
    } else if f.depth > 0 {
      if c == '/' && Peek(chars, i + 1, '*') {
        j, f' := i + 2, f.(depth := f.depth + 1);
      } else if c == '*' && Peek(chars, i + 1, '/') {
        j, f' := i + 2, f.(depth := f.depth - 1);
      }
    } else if f.singleQuote {
      if c == '\'' && Peek(chars, i + 1, '\'') {
        j := i + 2;
      } else if c == '\'' {
        f' := f.(singleQuote := false);
      }
    } else if f.doubleQuote {
      if c == '"' && Peek(chars, i + 1, '"') {
        j := i + 2;
      } else if c == '"' {
        f' := f.(doubleQuote := false);
      }
    } else {
      var tag := f.tag.value;
      assert ("$" + tag + "$")[0] == '$';
      if c == '$' {
        var matches := TagMatches(chars, i, tag);
        if matches {
          j, f' := i + |tag| + 2, f.(tag := None);
        }
      }
    }
  }

  /** Reads in plain mode, where the character is no separator. */
  method ReadPlain(chars: string, i: nat) returns (j: nat, f': Flags)
    requires i < |chars|
    ensures j > i && Exclusive(f') && Token(j - i, ModeOf(f')) == Next(Plain, chars[i..])
  {
    var c := chars[i];
    j, f' := i + 1, NO_FLAGS;
    if c == '\'' {
      f' := NO_FLAGS.(singleQuote := true);
    } else if c == '"' {
      f' := NO_FLAGS.(doubleQuote := true);
    } else if c == '$' {
      assert chars[i..][1..] == chars[i + 1..];
      if Peek(chars, i + 1, '$') {
        j, f' := i + 2, NO_FLAGS.(tag := Some(""));
      } else if i + 1 < |chars| && IsTagStart(chars[i + 1]) {
        var k := ScanTag(chars, i + 1);
        if Peek(chars, k, '$') {
          j, f' := k + 1, NO_FLAGS.(tag := Some(chars[i + 1..k]));
        }
      }
    } else if c == '-' && Peek(chars, i + 1, '-') {
      j, f' := i + 2, NO_FLAGS.(lineComment := true);
    } else if c == '/' && Peek(chars, i + 1, '*') {
      j, f' := i + 2, NO_FLAGS.(depth := 1);
    }
  }

  method SplitStatements(chars: string) returns (r: SplitResult)
    ensures r == Split(chars)
  {
    var complete: seq<string> := [];
    var current := "";
    var flags := NO_FLAGS;
    var i := 0;
    ghost var done: seq<string> := [];
    while i < |chars|
      invariant i <= |chars| && Exclusive(flags)
      invariant Pieces(Plain, "", chars) == done + Pieces(ModeOf(flags), current, chars[i..])
      invariant complete == TrimmedNonempty(done)
    {
      if flags == NO_FLAGS && chars[i] == ';' {
        var trimmed := Trim(current);
        PushPiece(done, current, chars[i..], chars[i + 1..]);
        done := done + [current];
        if trimmed != "" {
          complete := complete + [trimmed];
        }
        current := "";
        i := i + 1;
      } else {
        var j, f;
        if flags == NO_FLAGS {
          j, f := ReadPlain(chars, i);
        } else {
          j, f := ReadQuoted(chars, i, flags);
        }
        PushToken(ModeOf(flags), current, chars, i, j, ModeOf(f));
        current := current + chars[i..j];
        i, flags := j, f;
      }
    }
    assert Front(done + [current]) == done;
    return SplitResult(complete, TrimStart(current));
  }

  lemma PushPiece(done: seq<string>, current: string, s: string, tail: string)
    requires AtSeparator(Plain, s) && tail == s[1..]
    ensures done + Pieces(Plain, current, s) == done + [current] + Pieces(Plain, "", tail)
    ensures TrimmedNonempty(done + [current]) == TrimmedNonempty(done) + (if Trim(current) == "" then [] else [Trim(current)])
  {
    AppendAssoc(done, [current], Pieces(Plain, "", tail));
    assert (done + [current])[..|done|] == done;
  }

  lemma PushToken(mode: Mode, current: string, chars: string, i: nat, j: nat, mode': Mode)
    requires i < |chars| && !AtSeparator(mode, chars[i..]) && i < j && Token(j - i, mode') == Next(mode, chars[i..])
    ensures j <= |chars|
    ensures Pieces(mode, current, chars[i..]) == Pieces(mode', current + chars[i..j], chars[j..])
  {
    assert chars[i..][j - i..] == chars[j..] && chars[i..][..j - i] == chars[i..j];
    PiecesStep(mode, current, chars[i..], Token(j - i, mode'), chars[j..]);
  }

  // ---------------------------------------------------------------------------
  // Leading comments
  // ---------------------------------------------------------------------------

  /** The offset behind the block comment, `i` being inside it at this depth. */
  function BlockEnd(s: string, i: nat, depth: nat): (end: Option<nat>)
    requires i <= |s|
    ensures end.Some? ==> i <= end.value <= |s|
    decreases |s| - i
  {
    if depth == 0 then Some(i)
    else if i + 1 >= |s| then None
    else if s[i] == '/' && s[i + 1] == '*' then BlockEnd(s, i + 2, depth + 1)
    else if s[i] == '*' && s[i + 1] == '/' then BlockEnd(s, i + 2, depth - 1)
    else BlockEnd(s, i + 1, depth)
  }

  /** The offset of the first line break. */
  function FindLineBreak(s: string): (pos: Option<nat>)
    ensures pos.Some? ==> pos.value < |s| && s[pos.value] == '\n'
    ensures forall i :: 0 <= i < (if pos.Some? then pos.value else |s|) ==> s[i] != '\n'
  {
    if s == "" then None
    else if s[0] == '\n' then Some(0)
    else
      var rest := FindLineBreak(s[1..]);
      if rest.Some? then Some(rest.value + 1) else None
  }

  function Strip(sql: string): string
    decreases |TrimStart(sql)|, 2
  {
    StripTrimmed(TrimStart(sql))
  }

  function StripTrimmed(s: string): string
    decreases |s|, 1
  {
    if Starts2(s, '-', '-') then
      var pos := FindLineBreak(s);
      if pos.Some? then StripRest(s, pos.value + 1) else ""
    else if Starts2(s, '/', '*') then
      var end := BlockEnd(s, 2, 1);
      if end.Some? then StripRest(s, end.value) else ""
    else s
  }

  function StripRest(s: string, n: nat): string
    requires 0 < n <= |s|
    decreases |s|, 0
  {
    TrimStartShrinks(s[n..]);
    Strip(s[n..])
  }

  lemma TrimStartShrinks(s: string)
    ensures |TrimStart(s)| <= |s|
  {}

  // ---------------------------------------------------------------------------
  // The comment stripper agrees with the lexer
  // ---------------------------------------------------------------------------

  /** The next token is white space or part of a comment. */
  predicate IsTrivia(mode: Mode, s: string)
    requires s != ""
  {
    mode.LineComment? || mode.BlockComment?
    || (mode.Plain? && (IsWhitespace(s[0]) || Starts2(s, '-', '-') || Starts2(s, '/', '*')))
  }

  /** The lexer's mode after `n` characters, provided that they are trivia only. */
  function TriviaRun(mode: Mode, s: string, n: nat): Option<Mode>
    decreases |s|
  {
    if n == 0 then Some(mode)
    else if s == "" || !IsTrivia(mode, s) || Next(mode, s).length > n then None
    else TriviaRun(Next(mode, s).mode, s[Next(mode, s).length..], n - Next(mode, s).length)
  }

  lemma TriviaStep(mode: Mode, s: string, n: nat, t: Token, tail: string)
    requires s != "" && IsTrivia(mode, s) && t == Next(mode, s) && tail == s[t.length..] && t.length <= n
    ensures TriviaRun(mode, s, n) == TriviaRun(t.mode, tail, n - t.length)
  {}

  lemma {:induction false} TriviaIsLexed(mode: Mode, s: string, n: nat)
    requires TriviaRun(mode, s, n).Some?
    ensures ModeAfter(mode, s, n) == TriviaRun(mode, s, n)
    decreases |s|
  {
    if n > 0 {
      var t := Next(mode, s);
      TriviaIsLexed(t.mode, s[t.length..], n - t.length);
    }
  }

  /** The first token of a stretch of trivia. */
  lemma TriviaHead(mode: Mode, s: string, m: nat, n: nat) returns (k: nat, next: Mode, tail: string)
    requires 0 < m <= n && TriviaRun(mode, s, m).Some?
    ensures 0 < k <= m && k <= |s| && tail == s[k..]
    ensures TriviaRun(mode, s, m) == TriviaRun(next, tail, m - k)
    ensures TriviaRun(mode, s, n) == TriviaRun(next, tail, n - k)
  {
    var t := Next(mode, s);
    k, next, tail := t.length, t.mode, s[t.length..];
  }

  lemma DropRest(s: string, k: nat, m: nat, tail: string, rest: string)
    requires k <= m <= |s| && tail == s[k..] && rest == s[m..]
    ensures m - k <= |tail| && rest == tail[m - k..] && (k == 0 ==> tail == s)
  {}

  lemma NoTrivia(mode: Mode, s: string, after: Mode, rest: string)
    requires TriviaRun(mode, s, 0) == Some(after) && rest == s[0..]
    ensures after == mode && rest == s
  {}

  /** Lexing `n` characters is lexing `m` of them, then the rest. */
  ghost predicate GoesOn(mode: Mode, s: string, m: nat, n: nat, after: Mode, rest: string)
    requires m <= n
  {
    TriviaRun(mode, s, n) == TriviaRun(after, rest, n - m)
  }

  lemma GoesOnStep(mode: Mode, s: string, m: nat, n: nat, m': nat, n': nat, after: Mode, rest: string, next: Mode, tail: string)
    requires m <= n && m' <= n' && n' - m' == n - m
    requires TriviaRun(mode, s, n) == TriviaRun(next, tail, n')
    requires GoesOn(next, tail, m', n', after, rest)
    ensures GoesOn(mode, s, m, n, after, rest)
  {}

  /** The stretch without its first token. */
  lemma TriviaTail(mode: Mode, s: string, m: nat, n: nat, after: Mode, rest: string)
    returns (next: Mode, tail: string, m': nat, n': nat)
    requires 0 < m <= n && m <= |s| && TriviaRun(mode, s, m) == Some(after) && rest == s[m..]
    ensures TriviaRun(next, tail, m') == Some(after) && m' <= n' && m' <= |tail| && rest == tail[m'..]
    ensures |tail| < |s| && n' - m' == n - m && TriviaRun(mode, s, n) == TriviaRun(next, tail, n')
  {
    var k;
    k, next, tail := TriviaHead(mode, s, m, n);
    m', n' := m - k, n - k;
    DropRest(s, k, m, tail, rest);
  }

  lemma {:induction false} TriviaGoesOn(mode: Mode, s: string, m: nat, n: nat, after: Mode, rest: string)
    requires TriviaRun(mode, s, m) == Some(after) && m <= n && m <= |s| && rest == s[m..]
    ensures GoesOn(mode, s, m, n, after, rest)
    decreases |s|
  {
    if m == 0 {
      NoTrivia(mode, s, after, rest);
    } else {
      var next, tail, m', n' := TriviaTail(mode, s, m, n, after, rest);
      TriviaGoesOn(next, tail, m', n', after, rest);
      GoesOnStep(mode, s, m, n, m', n', after, rest, next, tail);
    }
  }

  lemma TriviaContinues(mode: Mode, s: string, m: nat, n: nat)
    requires TriviaRun(mode, s, m).Some? && m <= n && m <= |s|
    ensures TriviaRun(mode, s, n) == TriviaRun(TriviaRun(mode, s, m).value, s[m..], n - m)
  {
    TriviaGoesOn(mode, s, m, n, TriviaRun(mode, s, m).value, s[m..]);
  }

  lemma {:induction false} WhitespaceIsTrivia(s: string) returns (n: nat)
    ensures n <= |s| && TrimStart(s) == s[n..] && TriviaRun(Plain, s, n) == Some(Plain)
  {
    if s != "" && IsWhitespace(s[0]) {
      var m := WhitespaceIsTrivia(s[1..]);
      n := m + 1;
      TriviaStep(Plain, s, n, Token(1, Plain), s[1..]);
      DropTwice(s, 1, m);
    } else {
      n := 0;
    }
  }

  lemma {:induction false} LineIsTrivia(s: string)
    ensures var pos := FindLineBreak(s);
            if pos.Some? then TriviaRun(LineComment, s, pos.value + 1) == Some(Plain)
            else TriviaRun(LineComment, s, |s|) == Some(LineComment)
  {
    if s != "" {
      if s[0] == '\n' {
        TriviaStep(LineComment, s, 1, Token(1, Plain), s[1..]);
      } else {
        LineIsTrivia(s[1..]);
        var pos := FindLineBreak(s);
        TriviaStep(LineComment, s, if pos.Some? then pos.value + 1 else |s|, Token(1, LineComment), s[1..]);
      }
    }
  }

  lemma LineCommentIsTrivia(s: string)
    requires Starts2(s, '-', '-')
    ensures var pos := FindLineBreak(s);
            if pos.Some? then TriviaRun(Plain, s, pos.value + 1) == Some(Plain)
            else TriviaRun(Plain, s, |s|).Some?
  {
    var pos, tail := FindLineBreak(s), s[2..];
    assert s[0] == '-' && s[1] == '-' && s[1..][1..] == tail;
    assert FindLineBreak(s[1..]) == (if FindLineBreak(tail).Some? then Some(FindLineBreak(tail).value + 1) else None);
    LineIsTrivia(tail);
    TriviaStep(Plain, s, if pos.Some? then pos.value + 1 else |s|, Token(2, LineComment), tail);
  }

  lemma BlockTokenIsTrivia(s: string, i: nat, depth: nat, n: nat, t: Token)
    requires i < |s| && depth > 0 && t == Next(BlockComment(depth), s[i..]) && i + t.length <= n
    ensures i + t.length <= |s|
    ensures TriviaRun(BlockComment(depth), s[i..], n - i) == TriviaRun(t.mode, s[i + t.length..], n - i - t.length)
  {
    assert s[i..][t.length..] == s[i + t.length..];
    TriviaStep(BlockComment(depth), s[i..], n - i, t, s[i + t.length..]);
  }

  /** The mode of the lexer inside block comments nested to this depth. */
  function BlockMode(depth: nat): Mode {
    if depth == 0 then Plain else BlockComment(depth)
  }

  lemma BlockEndStep(s: string, i: nat, depth: nat) returns (t: Token, depth': nat)
    requires i + 1 < |s| && depth > 0
    ensures t == Next(BlockComment(depth), s[i..]) && t.mode == BlockMode(depth') && i + t.length <= |s|
    ensures BlockEnd(s, i, depth) == BlockEnd(s, i + t.length, depth')
  {
    t := Next(BlockComment(depth), s[i..]);
    depth' := if t.mode.Plain? then 0 else t.mode.depth;
    assert s[i..][1] == s[i + 1];
  }

  /** Reading up to the end of the comment, or to the end of the text. */
  function BlockRun(s: string, i: nat, depth: nat): Option<Mode>
    requires i <= |s|
  {
    var end := BlockEnd(s, i, depth);
    TriviaRun(BlockMode(depth), s[i..], (if end.Some? then end.value else |s|) - i)
  }

  lemma BlockRunStep(s: string, i: nat, depth: nat) returns (j: nat, depth': nat)
    requires i + 1 < |s| && depth > 0
    ensures i < j <= |s|
    ensures BlockEnd(s, i, depth) == BlockEnd(s, j, depth') && BlockRun(s, i, depth) == BlockRun(s, j, depth')
  {
    var t;
    t, depth' := BlockEndStep(s, i, depth);
    j := i + t.length;
    var end := BlockEnd(s, i, depth);
    BlockTokenIsTrivia(s, i, depth, if end.Some? then end.value else |s|, t);
  }

  lemma {:induction false} BlockIsTrivia(s: string, i: nat, depth: nat)
    requires i <= |s|
    ensures if BlockEnd(s, i, depth).Some? then BlockRun(s, i, depth) == Some(Plain) else BlockRun(s, i, depth).Some?
    decreases |s| - i
  {
    if depth > 0 && i + 1 < |s| {
      var j, depth' := BlockRunStep(s, i, depth);
      BlockIsTrivia(s, j, depth');
    } else if depth > 0 && i < |s| {
      BlockTokenIsTrivia(s, i, depth, |s|, Next(BlockComment(depth), s[i..]));
    }
  }

  lemma BlockCommentIsTrivia(s: string)
    requires Starts2(s, '/', '*')
    ensures var end := BlockEnd(s, 2, 1);
            if end.Some? then TriviaRun(Plain, s, end.value) == Some(Plain)
            else TriviaRun(Plain, s, |s|).Some?
  {
    BlockIsTrivia(s, 2, 1);
    OpenBlock(s, if BlockEnd(s, 2, 1).Some? then BlockEnd(s, 2, 1).value else |s|, s[2..]);
  }

  lemma OpenBlock(s: string, n: nat, tail: string)
    requires Starts2(s, '/', '*') && n >= 2 && tail == s[2..]
    ensures TriviaRun(Plain, s, n) == TriviaRun(BlockComment(1), tail, n - 2)
  {
    assert s[0] == '/' && s[1] == '*' && !Starts2(s, '-', '-');
    TriviaStep(Plain, s, n, Token(2, BlockComment(1)), tail);
  }

  /** Nothing that the stripper would take off. */
  predicate StartsPlainly(s: string) {
    s != "" ==> !IsWhitespace(s[0]) && !Starts2(s, '-', '-') && !Starts2(s, '/', '*')
  }

  /** The first `n` characters of `s` are trivia, and all of them when nothing else is there. */
  predicate StrippedAt(s: string, n: nat) {
    && n <= |s| && StartsPlainly(s[n..])
    && (if n < |s| then TriviaRun(Plain, s, n) == Some(Plain) else TriviaRun(Plain, s, n).Some?)
  }

  lemma StrippedAfterTrivia(s: string, m: nat, tail: string, n: nat)
    requires m <= |s| && tail == s[m..] && TriviaRun(Plain, s, m) == Some(Plain) && StrippedAt(tail, n)
    ensures StrippedAt(s, m + n) && s[m + n..] == tail[n..]
  {
    TriviaGoesOn(Plain, s, m, m + n, Plain, tail);
    DropRest(s, m, m + n, tail, s[m + n..]);
  }

  lemma TrimmedStart(sql: string)
    ensures TrimStart(sql) != "" ==> !IsWhitespace(TrimStart(sql)[0])
  {
    var w := TrimStartParts(sql);
  }

  /** The stripper removes exactly the leading white space and comments of the lexer. */
  lemma {:induction false} StripAgrees(sql: string) returns (n: nat)
    ensures StrippedAt(sql, n) && Strip(sql) == sql[n..]
    decreases |sql|, 2
  {
    var m := WhitespaceIsTrivia(sql);
    TrimmedStart(sql);
    var k := StripTrimmedAgrees(sql[m..]);
    StrippedAfterTrivia(sql, m, sql[m..], k);
    n := m + k;
  }

  lemma {:induction false} StripTrimmedAgrees(s: string) returns (n: nat)
    requires s != "" ==> !IsWhitespace(s[0])
    ensures StrippedAt(s, n) && StripTrimmed(s) == s[n..]
    decreases |s|, 1
  {
    if Starts2(s, '-', '-') {
      LineCommentIsTrivia(s);
      if FindLineBreak(s).Some? {
        n := StripBehind(s, FindLineBreak(s).value + 1);
      } else {
        n := |s|;
      }
    } else if Starts2(s, '/', '*') {
      BlockCommentIsTrivia(s);
      if BlockEnd(s, 2, 1).Some? {
        n := StripBehind(s, BlockEnd(s, 2, 1).value);
      } else {
        n := |s|;
      }
    } else {
      n := 0;
    }
  }

  lemma StripBehind(s: string, m: nat) returns (n: nat)
    requires 0 < m <= |s| && TriviaRun(Plain, s, m) == Some(Plain)
    ensures StrippedAt(s, n) && Strip(s[m..]) == s[n..]
    decreases |s|, 0
  {
    var k := StripAgrees(s[m..]);
    StrippedAfterTrivia(s, m, s[m..], k);
    n := m + k;
  }

  lemma NothingToStrip(s: string)
    requires StartsPlainly(s)
    ensures Strip(s) == s
  {
    assert TrimStart(s) == s;
  }

  /**
   Stripping twice is stripping once; what is left starts with no white space or comment,
   and the lexer meets it in plain mode after trivia only. Nothing is left exactly when
   there is only trivia.
   */
  lemma StripIsFinal(sql: string) returns (n: nat)
    ensures n <= |sql| && Strip(sql) == sql[n..] && StartsPlainly(Strip(sql))
    ensures Strip(Strip(sql)) == Strip(sql)
    ensures Strip(sql) == "" <==> TriviaRun(Plain, sql, |sql|).Some?
    ensures Strip(sql) != "" ==> TriviaRun(Plain, sql, n) == Some(Plain) && ModeAfter(Plain, sql, n) == Some(Plain)
  {
    n := StripAgrees(sql);
    NothingToStrip(sql[n..]);
    if n < |sql| {
      TriviaIsLexed(Plain, sql, n);
      TriviaContinues(Plain, sql, n, |sql|);
    }
  }

  /** Returns the text behind the leading comments. */
  method StripLeadingComments(sql: string) returns (r: string)
    ensures r == Strip(sql)
    decreases |sql|
  {
    var trimmed := TrimStart(sql);
    TrimStartShrinks(sql);
    assert Strip(sql) == StripTrimmed(trimmed);
    if Starts2(trimmed, '-', '-') {
      var pos := FindLineBreak(trimmed);
      if pos.None? {
        return "";
      }
      assert StripTrimmed(trimmed) == StripRest(trimmed, pos.value + 1);
      r := StripLeadingComments(trimmed[pos.value + 1..]);
    } else if Starts2(trimmed, '/', '*') {
      var depth: nat := 1;
      var i := 2;
      while i + 1 < |trimmed| && depth > 0
        invariant 2 <= i <= |trimmed|
        invariant BlockEnd(trimmed, 2, 1) == BlockEnd(trimmed, i, depth)
      {
        if trimmed[i] == '/' && trimmed[i + 1] == '*' {
          depth := depth + 1;
          i := i + 2;
        } else if trimmed[i] == '*' && trimmed[i + 1] == '/' {
          depth := depth - 1;
          i := i + 2;
        } else {
          i := i + 1;
        }
      }
      if depth > 0 {
        return "";
      }
      assert StripTrimmed(trimmed) == StripRest(trimmed, i);
      r := StripLeadingComments(trimmed[i..]);
    } else {
      return trimmed;
    }
  }
}
