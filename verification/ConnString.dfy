/**
 Key-value connection strings: the parser of the driver, and the printer of named
 connections.
 */
module ConnString {
  import opened Wrappers
  import opened Sequences
  import opened Characters

  // ---------------------------------------------------------------------------
  // Settings
  // ---------------------------------------------------------------------------

  datatype SslMode = SslDisable | SslPrefer | SslRequire
  datatype SslNegotiation = Postgres | Direct
  datatype TargetSessionAttrs = Any | ReadWrite | ReadOnly
  datatype ChannelBinding = BindDisable | BindPrefer | BindRequire
  datatype LoadBalanceHosts = BalanceDisable | BalanceRandom
  datatype Host = Tcp(name: string) | Unix(path: string)

  datatype Config = Config(
    user: Option<string>, password: Option<string>, dbname: Option<string>, options: Option<string>,
    applicationName: Option<string>, sslMode: SslMode, sslNegotiation: SslNegotiation,
    hosts: seq<Host>, hostaddrs: seq<string>, ports: seq<nat>,
    connectTimeout: Option<nat>, tcpUserTimeout: Option<nat>,
    keepalives: bool, keepalivesIdle: nat, keepalivesInterval: Option<nat>, keepalivesRetries: Option<nat>,
    targetSessionAttrs: TargetSessionAttrs, channelBinding: ChannelBinding, loadBalanceHosts: LoadBalanceHosts,
    opengaussCompat: bool)

  const DEFAULT := Config(
    None, None, None, None, None, SslPrefer, Postgres, [], [], [], None, None, true, 7200, None, None,
    Any, BindPrefer, BalanceDisable, false)

  datatype ParseError = UnexpectedCharacter | UnexpectedEof | Unterminated | InvalidValue(key: string) | UnknownOption

  const U16_MAX := 0xFFFF
  const U32_MAX := 0xFFFF_FFFF
  const I64_MAX := 0x7FFF_FFFF_FFFF_FFFF

  function SplitCommas(s: string): (parts: seq<string>)
    ensures parts != []
  {
    if s == "" then [""]
    else if s[0] == ',' then [""] + SplitCommas(s[1..])
    else
      var parts := SplitCommas(s[1..]);
      [[s[0]] + parts[0]] + parts[1..]
  }

  function HostOf(name: string): Host { if name != "" && name[0] == '/' then Unix(name) else Tcp(name) }

  function HostsOf(names: seq<string>): (hosts: seq<Host>)
    ensures |hosts| == |names|
  {
    if names == [] then [] else [HostOf(names[0])] + HostsOf(names[1..])
  }

  /** A port list; an empty entry is the default port. */
  function PortsOf(parts: seq<string>): Option<seq<nat>> {
    if parts == [] then Some([])
    else
      var port := if parts[0] == "" then Some(5432) else ParseInt(parts[0], 0, U16_MAX);
      var rest := PortsOf(parts[1..]);
      if port.None? || rest.None? || port.value < 0 then None else Some([port.value] + rest.value)
  }

  function Positive(x: int, before: Option<nat>): Option<nat> { if x > 0 then Some(x) else before }

  /** `address` tells which texts are IP addresses. */
  function Param(c: Config, key: string, value: string, address: string -> bool): Result<Config, ParseError> {
    match key
    case "user" => Ok(c.(user := Some(value)))
    case "password" => Ok(c.(password := Some(value)))
    case "dbname" => Ok(c.(dbname := Some(value)))
    case "options" => Ok(c.(options := Some(value)))
    case "application_name" => Ok(c.(applicationName := Some(value)))
    case "sslmode" =>
      if value == "disable" then Ok(c.(sslMode := SslDisable))
      else if value == "prefer" then Ok(c.(sslMode := SslPrefer))
      else if value == "require" then Ok(c.(sslMode := SslRequire))
      else Err(InvalidValue(key))
    case "sslnegotiation" =>
      if value == "postgres" then Ok(c.(sslNegotiation := Postgres))
      else if value == "direct" then Ok(c.(sslNegotiation := Direct))
      else Err(InvalidValue(key))
    case "host" => Ok(c.(hosts := c.hosts + HostsOf(SplitCommas(value))))
    case "hostaddr" =>
      var parts := SplitCommas(value);
      if forall i :: 0 <= i < |parts| ==> address(parts[i]) then Ok(c.(hostaddrs := c.hostaddrs + parts))
      else Err(InvalidValue(key))
    case "port" =>
      (match PortsOf(SplitCommas(value))
       case None => Err(InvalidValue(key))
       case Some(ports) => Ok(c.(ports := c.ports + ports)))
    case "connect_timeout" =>
      (match ParseInt(value, -I64_MAX - 1, I64_MAX)
       case None => Err(InvalidValue(key))
       case Some(x) => Ok(c.(connectTimeout := Positive(x, c.connectTimeout))))
    case "tcp_user_timeout" =>
      (match ParseInt(value, -I64_MAX - 1, I64_MAX)
       case None => Err(InvalidValue(key))
       case Some(x) => Ok(c.(tcpUserTimeout := Positive(x, c.tcpUserTimeout))))
    case "keepalives" =>
      (match ParseInt(value, 0, U64_MAX)
       case None => Err(InvalidValue(key))
       case Some(x) => Ok(c.(keepalives := x != 0)))
    case "keepalives_idle" =>
      (match ParseInt(value, -I64_MAX - 1, I64_MAX)
       case None => Err(InvalidValue(key))
       case Some(x) => Ok(if x > 0 then c.(keepalivesIdle := x) else c))
    case "keepalives_interval" =>
      (match ParseInt(value, -I64_MAX - 1, I64_MAX)
       case None => Err(InvalidValue(key))
       case Some(x) => Ok(c.(keepalivesInterval := Positive(x, c.keepalivesInterval))))
    case "keepalives_retries" =>
      (match ParseInt(value, 0, U32_MAX)
       case None => Err(InvalidValue(key))
       case Some(x) => Ok(if x >= 0 then c.(keepalivesRetries := Some(x)) else c))
    case "target_session_attrs" =>
      if value == "any" then Ok(c.(targetSessionAttrs := Any))
      else if value == "read-write" then Ok(c.(targetSessionAttrs := ReadWrite))
      else if value == "read-only" then Ok(c.(targetSessionAttrs := ReadOnly))
      else Err(InvalidValue(key))
    case "channel_binding" =>
      if value == "disable" then Ok(c.(channelBinding := BindDisable))
      else if value == "prefer" then Ok(c.(channelBinding := BindPrefer))
      else if value == "require" then Ok(c.(channelBinding := BindRequire))
      else Err(InvalidValue(key))
    case "load_balance_hosts" =>
      if value == "disable" then Ok(c.(loadBalanceHosts := BalanceDisable))
      else if value == "random" then Ok(c.(loadBalanceHosts := BalanceRandom))
      else Err(InvalidValue(key))
    case "opengauss_compat" =>
      if value == "true" || value == "1" || value == "on" then Ok(c.(opengaussCompat := true))
      else if value == "false" || value == "0" || value == "off" then Ok(c.(opengaussCompat := false))
      else Err(InvalidValue(key))
    case _ => Err(UnknownOption)
  }

  // ---------------------------------------------------------------------------
  // Parsing, on what is left of the text
  // ---------------------------------------------------------------------------

  /** A text and what follows it. */
  datatype Lexed = Lexed(text: string, rest: string)

  function Push(c: char, l: Lexed): Lexed { l.(text := [c] + l.text) }

  function TakeWhile(f: char -> bool, s: string): (l: Lexed)
    ensures |l.text| + |l.rest| == |s|
  {
    if s != "" && f(s[0]) then Push(s[0], TakeWhile(f, s[1..])) else Lexed("", s)
  }

  function SkipSpace(s: string): string { TakeWhile(IsWhitespace, s).rest }

  predicate IsKeyChar(c: char) { !IsWhitespace(c) && c != '=' }

  function Keyword(s: string): Lexed { TakeWhile(IsKeyChar, s) }

  /** A backslash takes the next character, if any, as it is. */
  function SimpleValue(s: string): (l: Lexed)
    ensures |l.text| + |l.rest| <= |s|
  {
    if s == "" || IsWhitespace(s[0]) then Lexed("", s)
    else if s[0] != '\\' then Push(s[0], SimpleValue(s[1..]))
    else if |s| == 1 then Lexed("", "")
    else Push(s[1], SimpleValue(s[2..]))
  }

  /** Up to the closing quote, which stays. */
  function QuotedValue(s: string): (l: Option<Lexed>)
    ensures l.Some? ==> |l.value.text| + |l.value.rest| <= |s| && l.value.rest != "" && l.value.rest[0] == '\''
    decreases |s|
  {
    if s == "" then None
    else if s[0] == '\'' then Some(Lexed("", s))
    else if s[0] != '\\' then PushTo(s[0], QuotedValue(s[1..]))
    else if |s| == 1 then None
    else PushTo(s[1], QuotedValue(s[2..]))
  }

  function PushTo(c: char, l: Option<Lexed>): Option<Lexed> { if l.None? then None else Some(Push(c, l.value)) }

  function Value(s: string): (r: Result<Lexed, ParseError>)
    ensures r.Ok? ==> |r.value.text| + |r.value.rest| <= |s|
  {
    if s != "" && s[0] == '\'' then
      match QuotedValue(s[1..])
      case None => Err(Unterminated)
      case Some(l) => Ok(Lexed(l.text, l.rest[1..]))
    else
      var l := SimpleValue(s);
      if l.text == "" then Err(UnexpectedEof) else Ok(l)
  }

  datatype Parameter = Parameter(key: string, value: string, rest: string) | NoParameter

  function ReadParameter(s: string): (r: Result<Parameter, ParseError>)
    ensures r.Ok? && r.value.Parameter? ==> |r.value.value| + |r.value.rest| < |s|
  {
    var k := Keyword(SkipSpace(s));
    if k.text == "" then Ok(NoParameter)
    else
      var afterKey := SkipSpace(k.rest);
      if afterKey == "" then Err(UnexpectedEof)
      else if afterKey[0] != '=' then Err(UnexpectedCharacter)
      else match Value(SkipSpace(afterKey[1..]))
        case Err(e) => Err(e)
        case Ok(l) => Ok(Parameter(k.text, l.text, l.rest))
  }

  /** Every parameter consumes some of the text, so this terminates. */
  function Parse(s: string, c: Config, address: string -> bool): Result<Config, ParseError>
    decreases |s|
  {
    match ReadParameter(s)
    case Err(e) => Err(e)
    case Ok(NoParameter) => Ok(c)
    case Ok(Parameter(key, value, rest)) =>
      match Param(c, key, value, address)
      case Err(e) => Err(e)
      case Ok(c') => Parse(rest, c', address)
  }

  // ---------------------------------------------------------------------------
  // Printing
  // ---------------------------------------------------------------------------

  /** Quotes and backslashes are escaped with a backslash. */
  function Escape(v: string): string { if v == "" then "" else EscapeChar(v[0]) + Escape(v[1..]) }

  function EscapeChar(c: char): string { if c == '\'' || c == '\\' then ['\\', c] else [c] }

  function Quote(v: string): string { "'" + Escape(v) + "'" }

  predicate Clean(v: string) { forall i :: 0 <= i < |v| ==> !IsWhitespace(v[i]) && v[i] != '\\' }

  /** The values that need no quotes. */
  predicate IsPlain(v: string) { v != "" && v[0] != '\'' && Clean(v) }

  predicate IsKey(k: string) { k != "" && forall i :: 0 <= i < |k| ==> IsKeyChar(k[i]) }

  /** A parameter to print, quoted or as it is. */
  datatype Pair = Pair(key: string, value: string, quoted: bool)

  predicate Printable(p: Pair) { IsKey(p.key) && (p.quoted || IsPlain(p.value)) }

  function Written(p: Pair): string { if p.quoted then Quote(p.value) else p.value }

  function Text(p: Pair): string { p.key + ("=" + Written(p)) }

  function Joined(ps: seq<Pair>): string {
    if ps == [] then "" else if |ps| == 1 then Text(ps[0]) else Text(ps[0]) + (" " + Joined(ps[1..]))
  }

  /** Applying the parameters one after the other. */
  function ApplyAll(c: Config, ps: seq<Pair>, address: string -> bool): Result<Config, ParseError>
    decreases |ps|
  {
    if ps == [] then Ok(c)
    else match Param(c, ps[0].key, ps[0].value, address)
      case Err(e) => Err(e)
      case Ok(c') => ApplyAll(c', ps[1..], address)
  }

  // ---------------------------------------------------------------------------
  // Tokens are read back
  // ---------------------------------------------------------------------------

  /** Where a value ends: at the end of the text or at white space. */
  predicate EndsValue(tail: string) { tail != "" ==> IsWhitespace(tail[0]) }

  lemma SkipNothing(s: string)
    requires s != "" ==> !IsWhitespace(s[0])
    ensures SkipSpace(s) == s
  {}

  lemma KeywordReadBack(k: string, tail: string)
    requires forall i :: 0 <= i < |k| ==> IsKeyChar(k[i])
    requires tail != "" ==> !IsKeyChar(tail[0])
    ensures Keyword(k + tail) == Lexed(k, tail)
  {
    TakesExactly(IsKeyChar, k, tail);
  }

  lemma {:induction false} SimpleReadBack(v: string, tail: string)
    requires Clean(v) && EndsValue(tail)
    ensures SimpleValue(v + tail) == Lexed(v, tail)
  {
    if v == "" {
      AppendEmpty(tail);
    } else {
      assert (v + tail)[1..] == v[1..] + tail;
      SimpleReadBack(v[1..], tail);
    }
  }

  lemma QuotedStep(c: char, more: string, s: string)
    requires s == EscapeChar(c) + more
    ensures QuotedValue(s) == PushTo(c, QuotedValue(more))
  {
    if c == '\'' || c == '\\' {
      assert s[2..] == more;
    } else {
      assert s[1..] == more;
    }
  }

  lemma {:induction false} QuotedReadBack(v: string, tail: string)
    requires tail != "" && tail[0] == '\''
    ensures QuotedValue(Escape(v) + tail) == Some(Lexed(v, tail))
  {
    if v == "" {
      AppendEmpty(tail);
    } else {
      var c, more := v[0], Escape(v[1..]) + tail;
      QuotedReadBack(v[1..], tail);
      AppendAssoc(EscapeChar(c), Escape(v[1..]), tail);
      QuotedStep(c, more, EscapeChar(c) + more);
      assert [c] + v[1..] == v;
    }
  }

  /** Every value, quoted as documented, is read back as it was. */
  lemma QuotingReadBack(v: string, tail: string)
    ensures Value(Quote(v) + tail) == Ok(Lexed(v, tail))
  {
    var s := Quote(v) + tail;
    assert s[1..] == Escape(v) + ("'" + tail);
    QuotedReadBack(v, "'" + tail);
  }

  /** A simple value keeps its length only if it has no escapes; then it is what stands there. */
  lemma {:induction false} SimpleIsExact(s: string)
    requires |SimpleValue(s).text| + |SimpleValue(s).rest| == |s|
    ensures s == SimpleValue(s).text + SimpleValue(s).rest && Clean(SimpleValue(s).text)
  {
    if s != "" && !IsWhitespace(s[0]) && s[0] != '\\' {
      SimpleIsExact(s[1..]);
      var l := SimpleValue(s[1..]);
      assert s == [s[0]] + s[1..];
      AppendAssoc([s[0]], l.text, l.rest);
    }
  }

  /** An unquoted value in front of white space or the end is read back exactly when it is plain. */
  lemma UnquotedReadBackExactly(v: string, tail: string)
    requires EndsValue(tail)
    ensures Value(v + tail) == Ok(Lexed(v, tail)) <==> IsPlain(v)
  {
    var s := v + tail;
    if IsPlain(v) {
      SimpleReadBack(v, tail);
    } else if v == "" {
      AppendEmpty(tail);
    } else if v[0] != '\'' && SimpleValue(s) == Lexed(v, tail) {
      SimpleIsExact(s);
    }
  }

  /** A printed parameter is read back, with what follows it left over. */
  lemma ParameterReadBack(p: Pair, tail: string)
    requires Printable(p) && EndsValue(tail)
    ensures ReadParameter(Text(p) + tail) == Ok(Parameter(p.key, p.value, tail))
  {
    var value := Written(p) + tail;
    var s := Text(p) + tail;
    assert s == p.key + ("=" + value);
    SkipNothing(s);
    KeywordReadBack(p.key, "=" + value);
    assert ("=" + value)[1..] == value;
    SkipNothing(value);
    if p.quoted {
      QuotingReadBack(p.value, tail);
    } else {
      UnquotedReadBackExactly(p.value, tail);
    }
  }

  lemma SpaceIsSkipped(s: string)
    ensures ReadParameter(" " + s) == ReadParameter(s)
  {
    assert (" " + s)[1..] == s;
  }

  lemma ParseSkipsSpace(s: string, c: Config, address: string -> bool)
    ensures Parse(" " + s, c, address) == Parse(s, c, address)
  {
    SpaceIsSkipped(s);
  }

  ghost predicate AllPrintable(ps: seq<Pair>) { forall i :: 0 <= i < |ps| ==> Printable(ps[i]) }

  /** Parsing goes on after the parameters, unless one of them is refused. */
  function Continue(r: Result<Config, ParseError>, tail: string, address: string -> bool): Result<Config, ParseError> {
    match r
    case Err(e) => Err(e)
    case Ok(c) => Parse(tail, c, address)
  }

  lemma {:induction false} JoinedReadBack(ps: seq<Pair>, tail: string, c: Config, address: string -> bool)
    requires AllPrintable(ps) && EndsValue(tail)
    ensures Parse(Joined(ps) + tail, c, address) == Continue(ApplyAll(c, ps, address), tail, address)
    decreases |ps|
  {
    if ps == [] {
      AppendEmpty(tail);
    } else {
      var p, more := ps[0], ps[1..];
      var rest := if more == [] then tail else " " + (Joined(more) + tail);
      assert Joined(ps) + tail == Text(p) + rest;
      ParameterReadBack(p, rest);
      var r := Param(c, p.key, p.value, address);
      if r.Ok? && more != [] {
        ParseSkipsSpace(Joined(more) + tail, r.value, address);
        JoinedReadBack(more, tail, r.value, address);
      }
    }
  }

  /**
   Printing any parameters, each value quoted or plain, and parsing the text applies exactly
   these parameters in order: the first one refused is the error.
   */
  lemma PrintedParses(ps: seq<Pair>, c: Config, address: string -> bool)
    requires AllPrintable(ps)
    ensures Parse(Joined(ps), c, address) == ApplyAll(c, ps, address)
  {
    JoinedReadBack(ps, "", c, address);
    AppendEmpty(Joined(ps));
  }

  // ---------------------------------------------------------------------------
  // The grammar of a parameter
  // ---------------------------------------------------------------------------

  /** A parameter as it may be spelled: white space, key, white space, an equals sign, white space, value. */
  datatype Spelling = Spelling(space: string, key: string, before: string, after: string, raw: string)

  function Spelled(p: Spelling): string { p.space + (p.key + (p.before + ("=" + (p.after + p.raw)))) }

  ghost predicate AllSpace(s: string) { forall i :: 0 <= i < |s| ==> IsWhitespace(s[i]) }

  /** Characters that do not end the value, and pairs of a backslash and any character. */
  predicate IsUnits(u: string, ends: char -> bool) {
    u == "" ||
    (if u[0] == '\\' then |u| > 1 && IsUnits(u[2..], ends) else !ends(u[0]) && IsUnits(u[1..], ends))
  }

  predicate IsQuote(c: char) { c == '\'' }

  /** In quotes, or not: then up to white space, and a single backslash at the end of the text is dropped. */
  predicate IsValueText(raw: string, rest: string) {
    raw != "" &&
    if IsQuote(raw[0]) then |raw| > 1 && IsQuote(Last(raw)) && IsUnits(raw[1..|raw| - 1], IsQuote)
    else (IsUnits(raw, IsWhitespace) && EndsValue(rest))
         || (|raw| > 1 && Last(raw) == '\\' && IsUnits(Front(raw), IsWhitespace) && rest == "")
  }

  /** Backslashes are dropped, the characters behind them stay. */
  function Unescaped(u: string): string {
    if u == "" then ""
    else if u[0] != '\\' then [u[0]] + Unescaped(u[1..])
    else if |u| == 1 then ""
    else [u[1]] + Unescaped(u[2..])
  }

  function Meaning(raw: string): string {
    Unescaped(if |raw| > 1 && IsQuote(raw[0]) then raw[1..|raw| - 1] else raw)
  }

  /** In front of `rest` the text spells this parameter. */
  ghost predicate Spells(s: string, p: Spelling, rest: string) {
    && s == Spelled(p) + rest && IsKey(p.key) && IsValueText(p.raw, rest)
    && AllSpace(p.space) && AllSpace(p.before) && AllSpace(p.after)
  }

  // from the grammar to the parser

  lemma {:induction false} TakesExactly(f: char -> bool, a: string, b: string)
    requires (forall i :: 0 <= i < |a| ==> f(a[i])) && (b != "" ==> !f(b[0]))
    ensures TakeWhile(f, a + b) == Lexed(a, b)
  {
    if a == "" {
      AppendEmpty(b);
    } else {
      assert (a + b)[1..] == a[1..] + b;
      TakesExactly(f, a[1..], b);
      assert [a[0]] + a[1..] == a;
    }
  }

  lemma {:induction false} UnitsAreSimple(u: string, rest: string)
    requires IsUnits(u, IsWhitespace) && EndsValue(rest)
    ensures SimpleValue(u + rest) == Lexed(Unescaped(u), rest)
  {
    if u == "" {
      AppendEmpty(rest);
    } else {
      var n := if u[0] == '\\' then 2 else 1;
      assert (u + rest)[n..] == u[n..] + rest;
      UnitsAreSimple(u[n..], rest);
    }
  }

  lemma {:induction false} LoneBackslash(u: string)
    requires IsUnits(u, IsWhitespace)
    ensures SimpleValue(u + "\\") == Lexed(Unescaped(u + "\\"), "")
  {
    if u != "" {
      var n := if u[0] == '\\' then 2 else 1;
      assert (u + "\\")[n..] == u[n..] + "\\";
      LoneBackslash(u[n..]);
    }
  }

  lemma {:induction false} UnitsAreQuoted(u: string, tail: string)
    requires IsUnits(u, IsQuote) && tail != "" && tail[0] == '\''
    ensures QuotedValue(u + tail) == Some(Lexed(Unescaped(u), tail))
  {
    if u == "" {
      AppendEmpty(tail);
    } else {
      var n := if u[0] == '\\' then 2 else 1;
      assert (u + tail)[n..] == u[n..] + tail;
      UnitsAreQuoted(u[n..], tail);
    }
  }

  lemma ValueTextIsRead(raw: string, rest: string)
    requires IsValueText(raw, rest)
    ensures Value(raw + rest) == Ok(Lexed(Meaning(raw), rest))
  {
    if IsQuote(raw[0]) {
      var u := raw[1..|raw| - 1];
      assert (raw + rest)[1..] == u + ("'" + rest);
      UnitsAreQuoted(u, "'" + rest);
      assert ("'" + rest)[1..] == rest;
    } else if IsUnits(raw, IsWhitespace) && EndsValue(rest) {
      UnitsAreSimple(raw, rest);
    } else {
      LoneBackslash(Front(raw));
      assert Front(raw) + "\\" == raw && raw + rest == raw;
    }
  }

  lemma SpelledIsRead(s: string, p: Spelling, rest: string)
    requires Spells(s, p, rest)
    ensures ReadParameter(s) == Ok(Parameter(p.key, Meaning(p.raw), rest))
  {
    var value := p.raw + rest;
    var behind := "=" + (p.after + value);
    assert s == p.space + (p.key + (p.before + behind));
    assert (p.before + behind)[0] == (if p.before == "" then '=' else p.before[0]);
    TakesExactly(IsWhitespace, p.space, p.key + (p.before + behind));
    TakesExactly(IsKeyChar, p.key, p.before + behind);
    TakesExactly(IsWhitespace, p.before, behind);
    assert behind[1..] == p.after + value;
    TakesExactly(IsWhitespace, p.after, value);
    ValueTextIsRead(p.raw, rest);
  }

  // from the parser to the grammar

  lemma {:induction false} TakenIs(f: char -> bool, s: string)
    ensures var l := TakeWhile(f, s);
            && s == l.text + l.rest && (forall i :: 0 <= i < |l.text| ==> f(l.text[i])) && (l.rest != "" ==> !f(l.rest[0]))
  {
    if s != "" && f(s[0]) {
      var l := TakeWhile(f, s[1..]);
      TakenIs(f, s[1..]);
      assert s == [s[0]] + s[1..];
      AppendAssoc([s[0]], l.text, l.rest);
    }
  }

  /** The spelling of an unquoted value. */
  lemma {:induction false} SimpleIsUnits(s: string) returns (u: string)
    ensures var l := SimpleValue(s);
            && s == u + l.rest && l.text == Unescaped(u)
            && ((IsUnits(u, IsWhitespace) && EndsValue(l.rest))
                || (u != "" && Last(u) == '\\' && IsUnits(Front(u), IsWhitespace) && l.rest == ""))
  {
    if s == "" || IsWhitespace(s[0]) {
      u := "";
    } else if s == "\\" {
      u := s;
    } else {
      var n := if s[0] == '\\' then 2 else 1;
      var more := SimpleIsUnits(s[n..]);
      u := s[..n] + more;
      assert u[n..] == more && s == s[..n] + s[n..];
      assert more != "" ==> Front(u)[n..] == Front(more) && Last(u) == Last(more) && Front(u)[..n] == s[..n];
    }
  }

  /** One unit, `c` or a backslash and `c`, and what follows it. */
  lemma QuotedUnit(unit: string, c: char, t: string, more: string)
    requires (unit == [c] && c != '\'' && c != '\\') || unit == ['\\', c]
    ensures QuotedValue(unit + t) == PushTo(c, QuotedValue(t)) && Unescaped(unit + more) == [c] + Unescaped(more)
    ensures IsUnits(unit + more, IsQuote) <==> IsUnits(more, IsQuote)
  {
    assert (unit + t)[|unit|..] == t && (unit + more)[|unit|..] == more;
  }

  lemma {:induction false} QuotedIsUnits(s: string) returns (u: string)
    requires QuotedValue(s).Some?
    ensures var l := QuotedValue(s).value; s == u + l.rest && l.text == Unescaped(u) && IsUnits(u, IsQuote)
    decreases |s|
  {
    if s[0] == '\'' {
      u := "";
    } else {
      var n := if s[0] == '\\' then 2 else 1;
      var unit, t := s[..n], s[n..];
      assert s == unit + t;
      QuotedUnit(unit, s[n - 1], t, "");
      var more := QuotedIsUnits(t);
      u := unit + more;
      QuotedUnit(unit, s[n - 1], t, more);
      AppendAssoc(unit, more, QuotedValue(t).value.rest);
    }
  }

  lemma QuotedIsText(s: string, u: string, raw: string)
    requires s != "" && s[0] == '\'' && Value(s).Ok? && raw == "'" + u + "'"
    requires s[1..] == u + QuotedValue(s[1..]).value.rest && IsUnits(u, IsQuote)
    requires QuotedValue(s[1..]).value.text == Unescaped(u)
    ensures var l := Value(s).value; s == raw + l.rest && IsValueText(raw, l.rest) && Meaning(raw) == l.text
  {
    assert raw[1..|raw| - 1] == u;
    assert s == "'" + s[1..];
  }

  lemma ValueIsText(s: string) returns (raw: string)
    requires Value(s).Ok?
    ensures var l := Value(s).value; s == raw + l.rest && IsValueText(raw, l.rest) && Meaning(raw) == l.text
  {
    if s != "" && s[0] == '\'' {
      var u := QuotedIsUnits(s[1..]);
      raw := "'" + u + "'";
      QuotedIsText(s, u, raw);
    } else {
      raw := SimpleIsUnits(s);
      SimpleIsText(s, raw);
    }
  }

  lemma SimpleIsText(s: string, raw: string)
    requires (s == "" || s[0] != '\'') && Value(s).Ok?
    requires s == raw + SimpleValue(s).rest && SimpleValue(s).text == Unescaped(raw)
    requires (IsUnits(raw, IsWhitespace) && EndsValue(SimpleValue(s).rest))
             || (raw != "" && Last(raw) == '\\' && IsUnits(Front(raw), IsWhitespace) && SimpleValue(s).rest == "")
    ensures IsValueText(raw, SimpleValue(s).rest) && Meaning(raw) == SimpleValue(s).text
  {
    assert raw != "" && raw[0] == s[0];
  }

  lemma ReadIsSpelled(s: string) returns (p: Spelling)
    requires ReadParameter(s).Ok? && ReadParameter(s).value.Parameter?
    ensures var r := ReadParameter(s).value;
            Spells(s, p, r.rest) && p.key == r.key && Meaning(p.raw) == r.value
  {
    var space := TakeWhile(IsWhitespace, s);
    var key := Keyword(space.rest);
    var before := TakeWhile(IsWhitespace, key.rest);
    var behind := before.rest[1..];
    var after := TakeWhile(IsWhitespace, behind);
    TakenIs(IsWhitespace, s);
    TakenIs(IsKeyChar, space.rest);
    TakenIs(IsWhitespace, key.rest);
    TakenIs(IsWhitespace, behind);
    var raw := ValueIsText(after.rest);
    p := Spelling(space.text, key.text, before.text, after.text, raw);
    FirstAndRest(before.rest, behind);
    SpelledOf(s, p, space.rest, key.rest, before.rest, after.rest, Value(after.rest).value.rest);
  }

  lemma FirstAndRest(s: string, rest: string)
    requires s != "" && s[0] == '=' && rest == s[1..]
    ensures s == "=" + rest
  {}

  lemma SpelledOf(s: string, p: Spelling, a: string, b: string, c: string, d: string, rest: string)
    requires s == p.space + a && a == p.key + b && b == p.before + c && c == "=" + (p.after + d) && d == p.raw + rest
    ensures s == Spelled(p) + rest
  {}

  /** On every text, a parameter is read exactly where the grammar has one, with that key and value. */
  lemma ParameterExactly(s: string, key: string, value: string, rest: string)
    ensures ReadParameter(s) == Ok(Parameter(key, value, rest)) <==>
            exists p :: Spells(s, p, rest) && p.key == key && Meaning(p.raw) == value
  {
    if ReadParameter(s) == Ok(Parameter(key, value, rest)) {
      var p := ReadIsSpelled(s);
    }
    forall p | Spells(s, p, rest) && p.key == key && Meaning(p.raw) == value
      ensures ReadParameter(s) == Ok(Parameter(key, value, rest))
    {
      SpelledIsRead(s, p, rest);
    }
  }

  /** Nothing but units up to the end, and perhaps a backslash with nothing behind it. */
  predicate NeverEnds(u: string) {
    IsUnits(u, IsQuote) || (u != "" && Last(u) == '\\' && IsUnits(Front(u), IsQuote))
  }

  lemma {:induction false} UnterminatedExactly(u: string)
    ensures QuotedValue(u).None? <==> NeverEnds(u)
    decreases |u|
  {
    if u != "" && u[0] != '\'' && u != "\\" {
      var n := if u[0] == '\\' then 2 else 1;
      UnterminatedExactly(u[n..]);
      if |u| > n {
        assert Front(u)[n..] == Front(u[n..]) && Last(u) == Last(u[n..]);
      }
    }
  }

  /**
   Why a parameter is refused: behind its key the text ends, or something else than an equals
   sign stands there; the value is empty; or a quoted value has no end.
   */
  lemma ParameterErrors(space: string, key: string, before: string, behind: string)
    requires AllSpace(space) && IsKey(key) && AllSpace(before) && (behind != "" ==> !IsWhitespace(behind[0]))
    requires before == "" ==> behind == "" || behind[0] == '='
    ensures var s := space + (key + (before + behind));
            var e := ReadParameter(s);
            && (behind == "" ==> e == Err(UnexpectedEof))
            && (behind != "" && behind[0] != '=' ==> e == Err(UnexpectedCharacter))
            && (behind != "" && behind[0] == '=' ==>
                  var v := SkipSpace(behind[1..]);
                  && (e == Err(UnexpectedEof) <==> v == "" || v == "\\")
                  && (e == Err(Unterminated) <==> v != "" && IsQuote(v[0]) && NeverEnds(v[1..]))
                  && (e.Ok? <==> e != Err(UnexpectedEof) && e != Err(Unterminated)))
  {
    TakesExactly(IsWhitespace, space, key + (before + behind));
    assert before + behind != "" ==> (before + behind)[0] == (if before == "" then behind[0] else before[0]);
    TakesExactly(IsKeyChar, key, before + behind);
    TakesExactly(IsWhitespace, before, behind);
    if behind != "" && behind[0] == '=' {
      var v := SkipSpace(behind[1..]);
      SkippedSpaceStops(behind[1..]);
      ValueErrors(v);
    }
  }

  lemma ValueErrors(v: string)
    requires v != "" ==> !IsWhitespace(v[0])
    ensures Value(v) == Err(UnexpectedEof) <==> v == "" || v == "\\"
    ensures Value(v) == Err(Unterminated) <==> v != "" && IsQuote(v[0]) && NeverEnds(v[1..])
    ensures Value(v).Err? ==> Value(v).error == UnexpectedEof || Value(v).error == Unterminated
  {
    if v != "" && v[0] == '\'' {
      UnterminatedExactly(v[1..]);
    }
  }

  // ---------------------------------------------------------------------------
  // Where parsing stops
  // ---------------------------------------------------------------------------

  lemma {:induction false} SkippedSpaceStops(s: string)
    ensures SkipSpace(s) != "" ==> !IsWhitespace(SkipSpace(s)[0])
  {
    if s != "" && IsWhitespace(s[0]) {
      SkippedSpaceStops(s[1..]);
    }
  }

  /** No parameter is found exactly at the end, or where an equals sign stands for a key. */
  lemma NoParameterExactly(s: string)
    ensures ReadParameter(s) == Ok(NoParameter) <==> SkipSpace(s) == "" || SkipSpace(s)[0] == '='
  {
    SkippedSpaceStops(s);
  }

  /** What is left when reading stops. */
  function Unread(s: string): string
    decreases |s|
  {
    match ReadParameter(s)
    case Ok(Parameter(_, _, rest)) => Unread(rest)
    case Ok(NoParameter) => SkipSpace(s)
    case Err(_) => SkipSpace(s)
  }

  /** White space and then an equals sign, with `ignored` behind it. */
  ghost predicate EqualsBehind(s: string, space: string, ignored: string) {
    s == space + ("=" + ignored) && AllSpace(space)
  }

  /** The text spells `n` parameters, and then an equals sign stands where a key should. */
  ghost predicate EqualsAfter(s: string, n: nat)
    decreases n
  {
    if n == 0 then exists space, ignored :: EqualsBehind(s, space, ignored)
    else exists p, rest :: Spells(s, p, rest) && EqualsAfter(rest, n - 1)
  }

  /** An equals sign stands where a key is expected. */
  ghost predicate EqualsForKey(s: string) { exists n: nat :: EqualsAfter(s, n) }

  lemma EqualsHere(s: string)
    ensures EqualsAfter(s, 0) <==> SkipSpace(s) != "" && SkipSpace(s)[0] == '='
  {
    if SkipSpace(s) != "" && SkipSpace(s)[0] == '=' {
      var l := TakeWhile(IsWhitespace, s);
      TakenIs(IsWhitespace, s);
      assert l.rest == "=" + l.rest[1..];
      assert EqualsBehind(s, l.text, l.rest[1..]);
    }
    forall space, ignored | EqualsBehind(s, space, ignored) ensures SkipSpace(s) == "=" + ignored {
      TakesExactly(IsWhitespace, space, "=" + ignored);
    }
  }

  lemma ReadingIsSpelling(s: string, n: nat)
    requires ReadParameter(s).Ok?
    ensures var r := ReadParameter(s).value; EqualsAfter(s, n + 1) <==> r.Parameter? && EqualsAfter(r.rest, n)
  {
    var r := ReadParameter(s).value;
    if r.Parameter? && EqualsAfter(r.rest, n) {
      var p := ReadIsSpelled(s);
      assert Spells(s, p, r.rest);
    }
    forall p, rest | Spells(s, p, rest) ensures r == Parameter(p.key, Meaning(p.raw), rest) {
      SpelledIsRead(s, p, rest);
    }
  }

  /** The sign stands behind the first parameter if and only if it stands in what follows it. */
  lemma EqualsBehindParameter(s: string, rest: string)
    requires ReadParameter(s).Ok? && ReadParameter(s).value.Parameter? && rest == ReadParameter(s).value.rest
    ensures EqualsForKey(s) <==> EqualsForKey(rest)
  {
    EqualsHere(s);
    NoParameterExactly(s);
    if EqualsForKey(rest) {
      var n: nat :| EqualsAfter(rest, n);
      ReadingIsSpelling(s, n);
    }
    if EqualsForKey(s) {
      var n: nat :| EqualsAfter(s, n);
      ReadingIsSpelling(s, n - 1);
    }
  }

  lemma EqualsFirst(s: string)
    requires ReadParameter(s) == Ok(NoParameter)
    ensures EqualsForKey(s) <==> SkipSpace(s) != ""
  {
    EqualsHere(s);
    NoParameterExactly(s);
    if SkipSpace(s) != "" {
      assert EqualsAfter(s, 0);
    }
    if EqualsForKey(s) {
      var n: nat :| EqualsAfter(s, n);
      if n > 0 {
        ReadingIsSpelling(s, n - 1);
      }
    }
  }

  /**
   An accepted text is read to its end if and only if no equals sign stands where a key is
   expected; otherwise everything from there on is left unread, without an error.
   */
  lemma {:induction false} AcceptedIsReadToEndExactly(s: string, c: Config, address: string -> bool)
    requires Parse(s, c, address).Ok?
    ensures Unread(s) == "" <==> !EqualsForKey(s)
    ensures Unread(s) != "" ==> Unread(s)[0] == '='
    decreases |s|
  {
    var p := ReadParameter(s).value;
    if p.Parameter? {
      var c' := Param(c, p.key, p.value, address).value;
      AcceptedIsReadToEndExactly(p.rest, c', address);
      EqualsBehindParameter(s, p.rest);
    } else {
      NoParameterExactly(s);
      EqualsFirst(s);
    }
  }

  lemma EqualsStops(ignored: string, c: Config, address: string -> bool)
    ensures Parse("=" + ignored, c, address) == Ok(c) && Unread("=" + ignored) == "=" + ignored
  {
    SkipNothing("=" + ignored);
    NoParameterExactly("=" + ignored);
  }

  /** Such a text: a setting without effect. */
  lemma IgnoredSetting(address: string -> bool)
    ensures Parse("=dbname=x", DEFAULT, address) == Ok(DEFAULT) && Unread("=dbname=x") == "=dbname=x"
  {}

  /** Behind any printed parameters an equals sign hides whatever follows it. */
  lemma StrayEqualsEndsParsing(ps: seq<Pair>, ignored: string, c: Config, address: string -> bool)
    requires AllPrintable(ps)
    ensures Parse(Joined(ps) + (" =" + ignored), c, address) == ApplyAll(c, ps, address)
  {
    var tail := " " + ("=" + ignored);
    assert " =" + ignored == tail;
    JoinedReadBack(ps, tail, c, address);
    var r := ApplyAll(c, ps, address);
    if r.Ok? {
      ParseSkipsSpace("=" + ignored, r.value, address);
      EqualsStops(ignored, r.value, address);
    }
  }

  // ---------------------------------------------------------------------------
  // The printer
  // ---------------------------------------------------------------------------

  /** A named connection: a ready-made text, or separate settings. */
  datatype NamedConnection = NamedConnection(
    url: Option<string>, host: Option<string>, port: Option<nat>, user: Option<string>,
    password: Option<string>, dbname: Option<string>, sslmode: Option<string>)

  function Part(key: string, value: Option<string>): seq<Pair> {
    if value.None? then [] else [Pair(key, value.value, false)]
  }

  function Digits(port: Option<nat>): Option<string> {
    if port.None? then None else Some(DecimalDigits(port.value))
  }

  function Parts(n: NamedConnection): seq<Pair> {
    Part("host", n.host) + (Part("port", Digits(n.port)) + (Part("user", n.user)
      + (Part("password", n.password) + (Part("dbname", n.dbname) + Part("sslmode", n.sslmode)))))
  }

  function ConnectionUrl(n: NamedConnection): Option<string> {
    if n.url.Some? then n.url
    else if n.host.None? && n.user.None? then None
    else Some(Joined(Parts(n)))
  }

  /** The parts' texts one by one, with a space in between. */
  function Join(texts: seq<string>): string {
    if texts == [] then "" else if |texts| == 1 then texts[0] else texts[0] + (" " + Join(texts[1..]))
  }

  function Texts(ps: seq<Pair>): (texts: seq<string>)
    ensures |texts| == |ps|
  {
    if ps == [] then [] else [Text(ps[0])] + Texts(ps[1..])
  }

  lemma {:induction false} JoinTexts(ps: seq<Pair>)
    ensures Join(Texts(ps)) == Joined(ps)
  {
    if |ps| > 1 {
      JoinTexts(ps[1..]);
      assert Texts(ps)[1..] == Texts(ps[1..]);
    }
  }

  lemma {:induction false} TextsAppend(ps: seq<Pair>, qs: seq<Pair>)
    ensures Texts(ps + qs) == Texts(ps) + Texts(qs)
  {
    if ps == [] {
      AppendEmpty(qs);
    } else {
      assert (ps + qs)[1..] == ps[1..] + qs;
      TextsAppend(ps[1..], qs);
    }
  }

  method PushPart(parts: seq<string>, key: string, value: Option<string>) returns (r: seq<string>)
    ensures r == parts + Texts(Part(key, value))
  {
    if value.None? {
      AppendEmpty(parts);
      return parts;
    }
    assert Text(Pair(key, value.value, false)) == key + "=" + value.value;
    assert Part(key, value)[1..] == [];
    return parts + [key + "=" + value.value];
  }

  method ToConnectionUrl(n: NamedConnection) returns (r: Option<string>)
    ensures r == ConnectionUrl(n)
  {
    if n.url.Some? {
      return n.url;
    }
    if n.host.None? && n.user.None? {
      return None;
    }
    var parts := PushPart([], "host", n.host);
    parts := PushPart(parts, "port", Digits(n.port));
    parts := PushPart(parts, "user", n.user);
    parts := PushPart(parts, "password", n.password);
    parts := PushPart(parts, "dbname", n.dbname);
    parts := PushPart(parts, "sslmode", n.sslmode);
    AllTexts(n);
    JoinTexts(Parts(n));
    return Some(Join(parts));
  }

  lemma AllTexts(n: NamedConnection)
    ensures [] + Texts(Part("host", n.host)) + Texts(Part("port", Digits(n.port))) + Texts(Part("user", n.user))
              + Texts(Part("password", n.password)) + Texts(Part("dbname", n.dbname)) + Texts(Part("sslmode", n.sslmode))
            == Texts(Parts(n))
  {
    var e, f := Part("dbname", n.dbname), Part("sslmode", n.sslmode);
    var d, c := Part("password", n.password), Part("user", n.user);
    var b, a := Part("port", Digits(n.port)), Part("host", n.host);
    TextsAppend(e, f);
    TextsAppend(d, e + f);
    TextsAppend(c, d + (e + f));
    TextsAppend(b, c + (d + (e + f)));
    TextsAppend(a, b + (c + (d + (e + f))));
    FiveAssoc(Texts(a), Texts(b), Texts(c), Texts(d), Texts(e), Texts(f));
  }

  lemma FiveAssoc<T>(a: seq<T>, b: seq<T>, c: seq<T>, d: seq<T>, e: seq<T>, f: seq<T>)
    ensures [] + a + b + c + d + e + f == a + (b + (c + (d + (e + f))))
  {
    AppendAssoc(a + b + c + d, e, f);
    AppendAssoc(a + b + c, d, e + f);
    AppendAssoc(a + b, c, d + (e + f));
    AppendAssoc(a, b, c + (d + (e + f)));
    AppendEmpty(a);
  }

  // ---------------------------------------------------------------------------
  // A printed connection is read back
  // ---------------------------------------------------------------------------

  ghost predicate PlainOrAbsent(v: Option<string>) { v.Some? ==> IsPlain(v.value) }

  /** A ready-made text is used as it is; otherwise there is one exactly when there is a host or a user. */
  lemma UrlExactly(n: NamedConnection)
    ensures n.url.Some? ==> ConnectionUrl(n) == n.url
    ensures ConnectionUrl(n).Some? <==> n.url.Some? || n.host.Some? || n.user.Some?
  {}

  /** Every setting that is present needs no quotes; a port number never does. */
  ghost predicate SettingsArePlain(n: NamedConnection) {
    && PlainOrAbsent(n.host) && PlainOrAbsent(n.user) && PlainOrAbsent(n.password)
    && PlainOrAbsent(n.dbname) && PlainOrAbsent(n.sslmode)
  }

  /** A connection with separate settings, printed without quotes, and a 16-bit port. */
  ghost predicate PlainConnection(n: NamedConnection) {
    && n.url.None? && (n.host.Some? || n.user.Some?) && SettingsArePlain(n)
    && (n.port.Some? ==> n.port.value <= U16_MAX)
  }

  predicate KnownSslMode(v: Option<string>) {
    v.None? || v.value == "disable" || v.value == "prefer" || v.value == "require"
  }

  /** The settings the connection asks for; a host with commas in it is a list of hosts. */
  function Asked(n: NamedConnection): Config {
    DEFAULT.(
      user := n.user, password := n.password, dbname := n.dbname,
      hosts := if n.host.None? then [] else HostsOf(SplitCommas(n.host.value)),
      ports := if n.port.None? then [] else [n.port.value],
      sslMode := if n.sslmode == Some("disable") then SslDisable
                 else if n.sslmode == Some("require") then SslRequire else SslPrefer)
  }

  lemma {:induction false} NoComma(s: string)
    requires ',' !in s
    ensures SplitCommas(s) == [s]
  {
    if s != "" {
      NoComma(s[1..]);
      assert [s[0]] + s[1..] == s;
    }
  }

  lemma DigitsArePlain(n: nat)
    ensures IsPlain(DecimalDigits(n)) && ',' !in DecimalDigits(n)
    ensures n <= U16_MAX ==> PortsOf(SplitCommas(DecimalDigits(n))) == Some([n])
  {
    var s := DecimalDigits(n);
    DigitsReadBack(n);
    assert IsDigit(s[0]);
    NoComma(s);
    if n <= U16_MAX {
      assert ParseInt(s, 0, U16_MAX) == Some(n);
      assert PortsOf([s][1..]) == Some([]);
      AppendEmpty([n]);
    }
  }

  /** A host without commas is one host. */
  lemma HostReadBack(host: string)
    requires ',' !in host
    ensures HostsOf(SplitCommas(host)) == [HostOf(host)]
  {
    NoComma(host);
    assert [host][1..] == [];
  }

  function AndThen(r: Result<Config, ParseError>, more: seq<Pair>, address: string -> bool): Result<Config, ParseError> {
    match r
    case Err(e) => Err(e)
    case Ok(c) => ApplyAll(c, more, address)
  }

  lemma ApplyPart(c: Config, key: string, value: Option<string>, more: seq<Pair>, address: string -> bool)
    ensures ApplyAll(c, Part(key, value) + more, address) ==
            if value.None? then ApplyAll(c, more, address)
            else AndThen(Param(c, key, value.value, address), more, address)
  {
    if value.None? {
      AppendEmpty(more);
    } else {
      assert (Part(key, value) + more)[1..] == more;
    }
  }

  lemma HostParam(c: Config, host: string, address: string -> bool)
    requires c.hosts == []
    ensures Param(c, "host", host, address) == Ok(c.(hosts := HostsOf(SplitCommas(host))))
  {
    AppendEmpty(HostsOf(SplitCommas(host)));
  }

  lemma PortParam(c: Config, port: nat, address: string -> bool)
    requires c.ports == [] && port <= U16_MAX
    ensures Param(c, "port", DecimalDigits(port), address) == Ok(c.(ports := [port]))
  {
    DigitsArePlain(port);
    AppendEmpty([port]);
  }

  lemma ApplyHostAndPort(n: NamedConnection, more: seq<Pair>, address: string -> bool)
    requires PlainConnection(n)
    ensures ApplyAll(DEFAULT, Part("host", n.host) + (Part("port", Digits(n.port)) + more), address) ==
            ApplyAll(DEFAULT.(hosts := Asked(n).hosts, ports := Asked(n).ports), more, address)
  {
    var c := DEFAULT.(hosts := Asked(n).hosts);
    var port := Digits(n.port);
    ApplyPart(DEFAULT, "host", n.host, Part("port", port) + more, address);
    if n.host.Some? {
      HostParam(DEFAULT, n.host.value, address);
    }
    ApplyPart(c, "port", port, more, address);
    if n.port.Some? {
      PortParam(c, n.port.value, address);
    }
  }

  lemma ApplyNames(n: NamedConnection, c: Config, more: seq<Pair>, address: string -> bool)
    requires c.user.None? && c.password.None? && c.dbname.None?
    ensures ApplyAll(c, Part("user", n.user) + (Part("password", n.password) + (Part("dbname", n.dbname) + more)), address) ==
            ApplyAll(c.(user := n.user, password := n.password, dbname := n.dbname), more, address)
  {
    var c1 := c.(user := n.user);
    var c2 := c1.(password := n.password);
    var afterPassword := Part("dbname", n.dbname) + more;
    var afterUser := Part("password", n.password) + afterPassword;
    ApplyUser(c, n.user, afterUser, address);
    ApplyPassword(c1, n.password, afterPassword, address);
    ApplyDbname(c2, n.dbname, more, address);
  }

  lemma ApplyUser(c: Config, v: Option<string>, more: seq<Pair>, address: string -> bool)
    requires c.user.None?
    ensures ApplyAll(c, Part("user", v) + more, address) == ApplyAll(c.(user := v), more, address)
  {
    ApplyPart(c, "user", v, more, address);
  }

  lemma ApplyPassword(c: Config, v: Option<string>, more: seq<Pair>, address: string -> bool)
    requires c.password.None?
    ensures ApplyAll(c, Part("password", v) + more, address) == ApplyAll(c.(password := v), more, address)
  {
    ApplyPart(c, "password", v, more, address);
  }

  lemma ApplyDbname(c: Config, v: Option<string>, more: seq<Pair>, address: string -> bool)
    requires c.dbname.None?
    ensures ApplyAll(c, Part("dbname", v) + more, address) == ApplyAll(c.(dbname := v), more, address)
  {
    ApplyPart(c, "dbname", v, more, address);
  }

  lemma SslModeParam(c: Config, mode: string, address: string -> bool)
    ensures Param(c, "sslmode", mode, address) ==
            if mode == "disable" then Ok(c.(sslMode := SslDisable))
            else if mode == "prefer" then Ok(c.(sslMode := SslPrefer))
            else if mode == "require" then Ok(c.(sslMode := SslRequire))
            else Err(InvalidValue("sslmode"))
  {}

  lemma KeysAreKeys()
    ensures IsKey("host") && IsKey("port") && IsKey("user") && IsKey("password") && IsKey("dbname") && IsKey("sslmode")
  {}

  lemma PartsArePrintable(n: NamedConnection)
    requires PlainConnection(n)
    ensures AllPrintable(Parts(n))
  {
    PartsArePlain(n);
    assert forall i :: 0 <= i < |Parts(n)| ==> IsKey(Parts(n)[i].key) && IsPlain(Parts(n)[i].value);
  }

  lemma ApplyParts(n: NamedConnection, address: string -> bool)
    requires PlainConnection(n)
    ensures ApplyAll(DEFAULT, Parts(n), address) ==
            ApplyAll(Asked(n).(sslMode := SslPrefer), Part("sslmode", n.sslmode), address)
  {
    var ssl := Part("sslmode", n.sslmode);
    var names := Part("user", n.user) + (Part("password", n.password) + (Part("dbname", n.dbname) + ssl));
    ApplyHostAndPort(n, names, address);
    ApplyNames(n, DEFAULT.(hosts := Asked(n).hosts, ports := Asked(n).ports), ssl, address);
  }

  /**
   A connection whose settings need no quotes, printed and parsed, gives exactly the
   settings asked for when the driver knows the TLS mode, and an error otherwise.
   */
  lemma PrintedConnectionReadBack(n: NamedConnection, address: string -> bool)
    requires PlainConnection(n)
    ensures ConnectionUrl(n).Some?
    ensures Parse(ConnectionUrl(n).value, DEFAULT, address) ==
            if KnownSslMode(n.sslmode) then Ok(Asked(n)) else Err(InvalidValue("sslmode"))
  {
    var c := Asked(n).(sslMode := SslPrefer);
    PartsArePrintable(n);
    PrintedParses(Parts(n), DEFAULT, address);
    ApplyParts(n, address);
    AppendEmpty(Part("sslmode", n.sslmode));
    ApplyPart(c, "sslmode", n.sslmode, [], address);
    if n.sslmode.Some? {
      SslModeParam(c, n.sslmode.value, address);
    }
  }

  // ---------------------------------------------------------------------------
  // Settings printed without quotes
  // ---------------------------------------------------------------------------

  /** The parameters read from a text, up to where reading stops; none when one is malformed. */
  function ReadAll(s: string): Option<seq<Pair>>
    decreases |s|
  {
    match ReadParameter(s)
    case Err(_) => None
    case Ok(NoParameter) => Some([])
    case Ok(Parameter(key, value, rest)) =>
      match ReadAll(rest)
      case None => None
      case Some(more) => Some([Pair(key, value, false)] + more)
  }

  /** What is read is what is applied. */
  lemma {:induction false} ParseAppliesAll(s: string, c: Config, address: string -> bool)
    requires ReadAll(s).Some?
    ensures Parse(s, c, address) == ApplyAll(c, ReadAll(s).value, address)
    decreases |s|
  {
    var p := ReadParameter(s).value;
    if p.Parameter? {
      var more := ReadAll(p.rest).value;
      assert ([Pair(p.key, p.value, false)] + more)[1..] == more;
      var r := Param(c, p.key, p.value, address);
      if r.Ok? {
        ParseAppliesAll(p.rest, r.value, address);
      }
    }
  }

  /** Keys are keys and nothing is quoted. */
  ghost predicate AllBare(ps: seq<Pair>) { forall i :: 0 <= i < |ps| ==> IsKey(ps[i].key) && !ps[i].quoted }

  ghost predicate AllPlain(ps: seq<Pair>) { forall i :: 0 <= i < |ps| ==> IsPlain(ps[i].value) }

  /** The characters the parameters need: each with an equals sign and a separator. */
  function Cost(ps: seq<Pair>): nat {
    if ps == [] then 0 else |ps[0].key| + 2 + |ps[0].value| + Cost(ps[1..])
  }

  lemma {:induction false} JoinedCosts(ps: seq<Pair>)
    requires AllBare(ps) && ps != []
    ensures |Joined(ps)| + 1 == Cost(ps)
  {
    if |ps| > 1 {
      JoinedCosts(ps[1..]);
    }
  }

  /** What stands behind the first of the parameters. */
  function Behind(ps: seq<Pair>): string
    requires ps != []
  {
    if |ps| == 1 then "" else " " + Joined(ps[1..])
  }

  lemma JoinedSplits(ps: seq<Pair>)
    requires AllBare(ps) && ps != []
    ensures Joined(ps) == ps[0].key + ("=" + (ps[0].value + Behind(ps))) && |Behind(ps)| == Cost(ps[1..])
    ensures EndsValue(Behind(ps))
  {
    if |ps| > 1 {
      JoinedCosts(ps[1..]);
    }
  }

  lemma BehindReads(ps: seq<Pair>)
    requires ps != []
    ensures ReadAll(Behind(ps)) == ReadAll(Joined(ps[1..]))
  {
    if |ps| > 1 {
      SpaceIsSkipped(Joined(ps[1..]));
    }
  }

  /** A key and its value are what stands behind the key's equals sign. */
  lemma KeyIsRead(key: string, text: string)
    requires IsKey(key)
    ensures ReadParameter(key + ("=" + text)) ==
            match Value(SkipSpace(text)) case Err(e) => Err(e) case Ok(l) => Ok(Parameter(key, l.text, l.rest))
  {
    var s := key + ("=" + text);
    assert ("=" + text)[1..] == text;
    SkipNothing(s);
    KeywordReadBack(key, "=" + text);
    SkipNothing("=" + text);
  }

  lemma {:induction false} SimpleEnds(s: string)
    ensures EndsValue(SimpleValue(s).rest)
  {
    if s != "" && !IsWhitespace(s[0]) {
      if s[0] != '\\' {
        SimpleEnds(s[1..]);
      } else if |s| > 1 {
        SimpleEnds(s[2..]);
      }
    }
  }

  /** A quoted value costs two characters more; an unquoted one ends at white space. */
  lemma ValueCosts(s: string)
    requires Value(s).Ok?
    ensures var l := Value(s).value;
            |l.text| + |l.rest| + 2 <= |s| || (EndsValue(l.rest) && |l.text| + |l.rest| <= |s|)
  {
    if s == "" || s[0] != '\'' {
      SimpleEnds(s);
    }
  }

  lemma ParameterCosts(s: string)
    requires ReadParameter(s).Ok? && ReadParameter(s).value.Parameter?
    ensures var p := ReadParameter(s).value;
            var n := |p.key| + 1 + |p.value| + |p.rest| + if IsWhitespace(s[0]) then 1 else 0;
            n + 2 <= |s| || (EndsValue(p.rest) && n <= |s|)
  {
    var k := Keyword(SkipSpace(s));
    var afterKey := SkipSpace(k.rest);
    ValueCosts(SkipSpace(afterKey[1..]));
  }

  /** The parameters read from a text cost no more than it has characters, and one for the first. */
  lemma {:induction false} ReadingCosts(s: string)
    requires ReadAll(s).Some?
    ensures Cost(ReadAll(s).value) <= |s| + 1 && (EndsValue(s) ==> Cost(ReadAll(s).value) <= |s|)
    decreases |s|
  {
    var p := ReadParameter(s).value;
    if p.Parameter? {
      ReadingCosts(p.rest);
      ParameterCosts(s);
      var more := ReadAll(p.rest).value;
      assert ([Pair(p.key, p.value, false)] + more)[1..] == more;
    }
  }

  /** A value that leaves enough for the rest stands there as it is. */
  lemma ValueIsThere(v: string, tail: string, rest: string, n: nat)
    requires Value(SkipSpace(v + tail)) == Ok(Lexed(v, rest)) && |tail| == n
    requires n <= |rest| + 1 && (EndsValue(rest) ==> n <= |rest|)
    ensures IsPlain(v) && rest == tail
  {
    var s := v + tail;
    var e := SkipSpace(s);
    ValueCosts(e);
    SkipSpaceShrinks(s);
    assert e == s;
    assert e != "" && e[0] != '\'';
    SimpleIsExact(e);
    assert e[|v|..] == tail && (v + rest)[|v|..] == rest;
  }

  lemma {:induction false} SkipSpaceShrinks(s: string)
    ensures |SkipSpace(s)| <= |s| && (|SkipSpace(s)| == |s| ==> SkipSpace(s) == s)
  {}

  lemma FirstIsPlain(ps: seq<Pair>)
    requires AllBare(ps) && ps != [] && ReadAll(Joined(ps)) == Some(ps)
    ensures IsPlain(ps[0].value) && ReadAll(Joined(ps[1..])) == Some(ps[1..])
  {
    var p, tail := ps[0], Behind(ps);
    JoinedSplits(ps);
    KeyIsRead(p.key, p.value + tail);
    var rest := ReadParameter(Joined(ps)).value.rest;
    var more := ReadAll(rest).value;
    assert ps == [Pair(p.key, p.value, false)] + more;
    assert ps[1..] == more;
    ReadingCosts(rest);
    ValueIsThere(p.value, tail, rest, Cost(more));
    BehindReads(ps);
  }

  lemma PlainIsFirst(ps: seq<Pair>)
    requires AllBare(ps) && ps != [] && IsPlain(ps[0].value) && ReadAll(Joined(ps[1..])) == Some(ps[1..])
    ensures ReadAll(Joined(ps)) == Some(ps)
  {
    var p, tail := ps[0], Behind(ps);
    JoinedSplits(ps);
    ParameterReadBack(p, tail);
    assert Joined(ps) == Text(p) + tail;
    BehindReads(ps);
    assert ps == [Pair(p.key, p.value, false)] + ps[1..];
  }

  /** Settings printed without quotes are read back if and only if none of them needs quotes. */
  lemma {:induction false} BareReadBackExactly(ps: seq<Pair>)
    requires AllBare(ps)
    ensures ReadAll(Joined(ps)) == Some(ps) <==> AllPlain(ps)
  {
    if ps != [] {
      BareReadBackExactly(ps[1..]);
      AllPlainCons(ps);
      if ReadAll(Joined(ps)) == Some(ps) {
        FirstIsPlain(ps);
      } else if AllPlain(ps) {
        PlainIsFirst(ps);
      }
    }
  }

  lemma AllPlainCons(ps: seq<Pair>)
    requires ps != []
    ensures AllPlain(ps) <==> IsPlain(ps[0].value) && AllPlain(ps[1..])
  {
    if IsPlain(ps[0].value) && AllPlain(ps[1..]) {
      forall i | 0 <= i < |ps| ensures IsPlain(ps[i].value) {
        assert i > 0 ==> ps[i] == ps[1..][i - 1];
      }
    }
  }

  lemma AppendPlain(ps: seq<Pair>, qs: seq<Pair>)
    ensures AllPlain(ps + qs) <==> AllPlain(ps) && AllPlain(qs)
    ensures AllBare(ps + qs) <==> AllBare(ps) && AllBare(qs)
  {
    assert forall i :: 0 <= i < |ps| ==> (ps + qs)[i] == ps[i];
    assert forall i :: 0 <= i < |qs| ==> (ps + qs)[|ps| + i] == qs[i];
  }

  lemma PartIsPlain(key: string, value: Option<string>)
    requires IsKey(key)
    ensures AllBare(Part(key, value)) && (AllPlain(Part(key, value)) <==> PlainOrAbsent(value))
  {
    if value.Some? {
      assert Part(key, value)[0].value == value.value;
    }
  }

  lemma PartsArePlain(n: NamedConnection)
    ensures AllBare(Parts(n)) && (AllPlain(Parts(n)) <==> SettingsArePlain(n))
  {
    if n.port.Some? {
      DigitsArePlain(n.port.value);
    }
    KeysAreKeys();
    PartIsPlain("host", n.host);
    PartIsPlain("port", Digits(n.port));
    PartIsPlain("user", n.user);
    PartIsPlain("password", n.password);
    PartIsPlain("dbname", n.dbname);
    PartIsPlain("sslmode", n.sslmode);
    SixPlain(Part("host", n.host), Part("port", Digits(n.port)), Part("user", n.user),
             Part("password", n.password), Part("dbname", n.dbname), Part("sslmode", n.sslmode));
  }

  lemma SixPlain(a: seq<Pair>, b: seq<Pair>, c: seq<Pair>, d: seq<Pair>, e: seq<Pair>, f: seq<Pair>)
    requires AllBare(a) && AllBare(b) && AllBare(c) && AllBare(d) && AllBare(e) && AllBare(f)
    ensures var all := a + (b + (c + (d + (e + f))));
            && AllBare(all)
            && (AllPlain(all) <==> AllPlain(a) && AllPlain(b) && AllPlain(c) && AllPlain(d) && AllPlain(e) && AllPlain(f))
  {
    AppendPlain(e, f);
    AppendPlain(d, e + f);
    AppendPlain(c, d + (e + f));
    AppendPlain(b, c + (d + (e + f)));
    AppendPlain(a, b + (c + (d + (e + f))));
  }

  /**
   The settings of a printed connection are read back, every one of them and nothing else, if
   and only if none that is present needs quotes.
   */
  lemma ConnectionReadBackExactly(n: NamedConnection)
    requires n.url.None? && (n.host.Some? || n.user.Some?)
    ensures ConnectionUrl(n).Some?
    ensures ReadAll(ConnectionUrl(n).value) == Some(Parts(n)) <==> SettingsArePlain(n)
  {
    PartsArePlain(n);
    BareReadBackExactly(Parts(n));
  }

  // ---------------------------------------------------------------------------
  // Settings that would need quotes
  // ---------------------------------------------------------------------------

  /** A connection with nothing but a user. */
  function OnlyUser(user: string): NamedConnection {
    NamedConnection(None, None, None, Some(user), None, None, None)
  }

  lemma OnlyUserUrl(user: string)
    ensures Parts(OnlyUser(user)) == [Pair("user", user, false)]
    ensures ConnectionUrl(OnlyUser(user)) == Some("user=" + user)
  {
    assert "user" + ("=" + user) == "user=" + user;
  }

  lemma TwoSettings(user: string, dbname: string, ps: seq<Pair>, address: string -> bool)
    requires ps == [Pair("user", user, false), Pair("dbname", dbname, false)]
    ensures ApplyAll(DEFAULT, ps, address) == Ok(DEFAULT.(user := Some(user), dbname := Some(dbname)))
  {
    assert ps == Part("user", Some(user)) + (Part("dbname", Some(dbname)) + []);
    ApplyUser(DEFAULT, Some(user), Part("dbname", Some(dbname)) + [], address);
    ApplyDbname(DEFAULT.(user := Some(user)), Some(dbname), [], address);
  }

  lemma TwoTexts(user: string, dbname: string, ps: seq<Pair>)
    requires ps == [Pair("user", user, false), Pair("dbname", dbname, false)]
    ensures Joined(ps) == "user=" + (user + (" dbname=" + dbname))
  {
    assert ps[1..] == [Pair("dbname", dbname, false)];
    assert Text(ps[0]) == "user=" + user;
    assert " " + Text(ps[1]) == " dbname=" + dbname;
    AppendAssoc("user=", user, " dbname=" + dbname);
  }

  lemma TwoSettingsRead(user: string, dbname: string, text: string, address: string -> bool)
    requires IsPlain(user) && IsPlain(dbname)
    requires text == "user=" + (user + (" dbname=" + dbname))
    ensures Parse(text, DEFAULT, address) == Ok(DEFAULT.(user := Some(user), dbname := Some(dbname)))
  {
    var ps := [Pair("user", user, false), Pair("dbname", dbname, false)];
    TwoTexts(user, dbname, ps);
    KeysAreKeys();
    PrintedParses(ps, DEFAULT, address);
    TwoSettings(user, dbname, ps, address);
  }

  /** A user name with a space and an equals sign in it is read as two settings. */
  lemma UnquotedSettingSplits(user: string, dbname: string, address: string -> bool)
    requires IsPlain(user) && IsPlain(dbname)
    ensures var n := OnlyUser(user + (" dbname=" + dbname));
            && ConnectionUrl(n).Some?
            && Parse(ConnectionUrl(n).value, DEFAULT, address) ==
               Ok(DEFAULT.(user := Some(user), dbname := Some(dbname)))
  {
    var name := user + (" dbname=" + dbname);
    OnlyUserUrl(name);
    TwoSettingsRead(user, dbname, "user=" + name, address);
  }

  lemma ParamUser(c: Config, key: string, value: string, address: string -> bool)
    requires Param(c, key, value, address).Ok?
    ensures var user := Param(c, key, value, address).value.user; user == c.user || user == Some(value)
  {}

  /** A setting read from a text is shorter than the text. */
  lemma {:induction false} UserIsShorter(s: string, c: Config, result: Config, address: string -> bool)
    requires Parse(s, c, address) == Ok(result)
    ensures result.user == c.user || (result.user.Some? && |result.user.value| < |s|)
    decreases |s|
  {
    var p := ReadParameter(s).value;
    if p.Parameter? {
      var c' := Param(c, p.key, p.value, address).value;
      ParamUser(c, p.key, p.value, address);
      UserIsShorter(p.rest, c', result, address);
    }
  }

  lemma UserParameter(v: string)
    ensures ReadParameter("user=" + v) ==
            match Value(SkipSpace(v)) case Err(e) => Err(e) case Ok(l) => Ok(Parameter("user", l.text, l.rest))
  {
    assert "user" + ("=" + v) == "user=" + v;
    KeyIsRead("user", v);
  }

  lemma UserApplied(user: string, ps: seq<Pair>, address: string -> bool)
    requires ps == Part("user", Some(user))
    ensures ApplyAll(DEFAULT, ps, address) == Ok(DEFAULT.(user := Some(user)))
  {
    AppendEmpty(ps);
    ApplyUser(DEFAULT, Some(user), [], address);
  }

  lemma UserIsPrintable(user: string, ps: seq<Pair>)
    requires IsPlain(user) && ps == Part("user", Some(user))
    ensures AllPrintable(ps) && Joined(ps) == "user=" + user
  {
    KeysAreKeys();
    OnlyUserUrl(user);
  }

  lemma PlainUserReadBack(v: string, address: string -> bool)
    requires IsPlain(v)
    ensures Parse("user=" + v, DEFAULT, address) == Ok(DEFAULT.(user := Some(v)))
  {
    var ps := Part("user", Some(v));
    UserIsPrintable(v, ps);
    PrintedParses(ps, DEFAULT, address);
    UserApplied(v, ps, address);
  }

  lemma OnlyPlainUserReadBack(v: string, l: Lexed, address: string -> bool)
    requires ReadParameter("user=" + v) == Ok(Parameter("user", l.text, l.rest)) && Ok(l) == Value(SkipSpace(v))
    requires Parse("user=" + v, DEFAULT, address) == Ok(DEFAULT.(user := Some(v)))
    ensures IsPlain(v)
  {
    UserIsShorter(l.rest, DEFAULT.(user := Some(l.text)), DEFAULT.(user := Some(v)), address);
    SkipSpaceShrinks(v);
    UnquotedReadBackExactly(v, "");
    AppendEmpty(v);
  }

  /** A connection with nothing but a user is read back if and only if the name needs no quotes. */
  lemma UserReadBackExactly(v: string, address: string -> bool)
    ensures ConnectionUrl(OnlyUser(v)).Some?
    ensures Parse(ConnectionUrl(OnlyUser(v)).value, DEFAULT, address) == Ok(DEFAULT.(user := Some(v))) <==> IsPlain(v)
  {
    OnlyUserUrl(v);
    UserParameter(v);
    if IsPlain(v) {
      PlainUserReadBack(v, address);
    } else if Parse("user=" + v, DEFAULT, address) == Ok(DEFAULT.(user := Some(v))) {
      OnlyPlainUserReadBack(v, Value(SkipSpace(v)).value, address);
    }
  }

  // ---------------------------------------------------------------------------
  // Every setting of the driver
  // ---------------------------------------------------------------------------

  function SpelledSslMode(m: SslMode): string {
    match m case SslDisable => "disable" case SslPrefer => "prefer" case SslRequire => "require"
  }

  function SpelledNegotiation(m: SslNegotiation): string {
    match m case Postgres => "postgres" case Direct => "direct"
  }

  function SpelledTarget(m: TargetSessionAttrs): string {
    match m case Any => "any" case ReadWrite => "read-write" case ReadOnly => "read-only"
  }

  function SpelledBinding(m: ChannelBinding): string {
    match m case BindDisable => "disable" case BindPrefer => "prefer" case BindRequire => "require"
  }

  function SpelledBalance(m: LoadBalanceHosts): string {
    match m case BalanceDisable => "disable" case BalanceRandom => "random"
  }

  predicate SpellsTrue(v: string) { v == "true" || v == "1" || v == "on" }

  predicate SpellsFalse(v: string) { v == "false" || v == "0" || v == "off" }

  // Each option with named values takes exactly these values, and changes nothing else.

  lemma SslModeExactly(c: Config, v: string, r: Config, address: string -> bool)
    ensures Param(c, "sslmode", v, address) == Ok(r) <==> exists m :: v == SpelledSslMode(m) && r == c.(sslMode := m)
  {
    if Param(c, "sslmode", v, address) == Ok(r) {
      assert v == SpelledSslMode(r.sslMode);
    }
  }

  lemma NegotiationExactly(c: Config, v: string, r: Config, address: string -> bool)
    ensures Param(c, "sslnegotiation", v, address) == Ok(r) <==>
              exists m :: v == SpelledNegotiation(m) && r == c.(sslNegotiation := m)
  {
    if Param(c, "sslnegotiation", v, address) == Ok(r) {
      assert v == SpelledNegotiation(r.sslNegotiation);
    }
  }

  lemma TargetExactly(c: Config, v: string, r: Config, address: string -> bool)
    ensures Param(c, "target_session_attrs", v, address) == Ok(r) <==>
              exists m :: v == SpelledTarget(m) && r == c.(targetSessionAttrs := m)
  {
    if Param(c, "target_session_attrs", v, address) == Ok(r) {
      assert v == SpelledTarget(r.targetSessionAttrs);
    }
  }

  lemma BindingExactly(c: Config, v: string, r: Config, address: string -> bool)
    ensures Param(c, "channel_binding", v, address) == Ok(r) <==>
              exists m :: v == SpelledBinding(m) && r == c.(channelBinding := m)
  {
    if Param(c, "channel_binding", v, address) == Ok(r) {
      assert v == SpelledBinding(r.channelBinding);
    }
  }

  lemma BalanceExactly(c: Config, v: string, r: Config, address: string -> bool)
    ensures Param(c, "load_balance_hosts", v, address) == Ok(r) <==>
              exists m :: v == SpelledBalance(m) && r == c.(loadBalanceHosts := m)
  {
    if Param(c, "load_balance_hosts", v, address) == Ok(r) {
      assert v == SpelledBalance(r.loadBalanceHosts);
    }
  }

  lemma CompatExactly(c: Config, v: string, r: Config, address: string -> bool)
    ensures Param(c, "opengauss_compat", v, address) == Ok(r) <==>
              (SpellsTrue(v) && r == c.(opengaussCompat := true)) || (SpellsFalse(v) && r == c.(opengaussCompat := false))
  {}

  const KEYS: set<string> := {
    "user", "password", "dbname", "options", "application_name", "sslmode", "sslnegotiation", "host", "hostaddr",
    "port", "connect_timeout", "tcp_user_timeout", "keepalives", "keepalives_idle", "keepalives_interval",
    "keepalives_retries", "target_session_attrs", "channel_binding", "load_balance_hosts", "opengauss_compat"}

  /** A key is refused exactly when it is none of these, and a value with its own key. */
  lemma RefusedExactly(c: Config, key: string, v: string, address: string -> bool)
    ensures Param(c, key, v, address) == Err(UnknownOption) <==> key !in KEYS
    ensures Param(c, key, v, address).Err? && key in KEYS ==> Param(c, key, v, address) == Err(InvalidValue(key))
  {}

  // lists

  function CommaJoined(parts: seq<string>): string
    requires parts != []
  {
    if |parts| == 1 then parts[0] else parts[0] + ("," + CommaJoined(parts[1..]))
  }

  lemma {:induction false} SplitFirst(p: string, more: string)
    requires ',' !in p
    ensures SplitCommas(p + ("," + more)) == [p] + SplitCommas(more)
  {
    if p == "" {
      assert p + ("," + more) == "," + more && ("," + more)[1..] == more;
    } else {
      assert (p + ("," + more))[1..] == p[1..] + ("," + more);
      SplitFirst(p[1..], more);
      assert [p[0]] + p[1..] == p;
    }
  }

  /** Any list of texts without commas, joined with commas, is split into them again. */
  lemma {:induction false} CommasReadBack(parts: seq<string>)
    requires parts != [] && forall i :: 0 <= i < |parts| ==> ',' !in parts[i]
    ensures SplitCommas(CommaJoined(parts)) == parts
  {
    if |parts| == 1 {
      NoComma(parts[0]);
    } else {
      SplitFirst(parts[0], CommaJoined(parts[1..]));
      CommasReadBack(parts[1..]);
      assert parts == [parts[0]] + parts[1..];
    }
  }

  /** A port of a list; one that is left out is 5432. */
  function PortText(port: Option<nat>): string { if port.None? then "" else DecimalDigits(port.value) }

  function PortTexts(ports: seq<Option<nat>>): (texts: seq<string>)
    ensures |texts| == |ports| && forall i :: 0 <= i < |ports| ==> texts[i] == PortText(ports[i])
  {
    seq(|ports|, i requires 0 <= i < |ports| => PortText(ports[i]))
  }

  function PortNumbers(ports: seq<Option<nat>>): (ns: seq<nat>)
    ensures |ns| == |ports| && forall i :: 0 <= i < |ports| ==> ns[i] == if ports[i].None? then 5432 else ports[i].value
  {
    seq(|ports|, i requires 0 <= i < |ports| => if ports[i].None? then 5432 else ports[i].value)
  }

  lemma {:induction false} PortsReadBack(ports: seq<Option<nat>>)
    requires forall i :: 0 <= i < |ports| && ports[i].Some? ==> ports[i].value <= U16_MAX
    ensures PortsOf(PortTexts(ports)) == Some(PortNumbers(ports))
    decreases |ports|
  {
    if ports != [] {
      PortsReadBack(ports[1..]);
      assert PortTexts(ports)[1..] == PortTexts(ports[1..]);
      assert PortNumbers(ports) == [PortNumbers(ports)[0]] + PortNumbers(ports[1..]);
      if ports[0].Some? {
        DigitsAreInt(ports[0].value, 0, U16_MAX);
      }
    }
  }

  /** A list of ports sets all of them in order. */
  lemma PortListParam(c: Config, ports: seq<Option<nat>>, address: string -> bool)
    requires ports != [] && forall i :: 0 <= i < |ports| && ports[i].Some? ==> ports[i].value <= U16_MAX
    ensures Param(c, "port", CommaJoined(PortTexts(ports)), address) == Ok(c.(ports := c.ports + PortNumbers(ports)))
  {
    forall i | 0 <= i < |ports| ensures ',' !in PortTexts(ports)[i] {
      if ports[i].Some? {
        DigitsArePlain(ports[i].value);
      }
    }
    CommasReadBack(PortTexts(ports));
    PortsReadBack(ports);
  }

  lemma {:induction false} HostsReadBack(hosts: seq<Host>)
    requires forall i :: 0 <= i < |hosts| ==> IsNamed(hosts[i])
    ensures HostsOf(NamesOf(hosts)) == hosts
    decreases |hosts|
  {
    if hosts != [] {
      HostsReadBack(hosts[1..]);
      assert NamesOf(hosts)[1..] == NamesOf(hosts[1..]);
      assert hosts == [hosts[0]] + hosts[1..];
    }
  }

  /** A list of hosts sets all of them in order; a name that begins with a slash is a socket's path. */
  lemma HostListParam(c: Config, hosts: seq<Host>, address: string -> bool)
    requires hosts != [] && forall i :: 0 <= i < |hosts| ==> IsNamed(hosts[i])
    ensures Param(c, "host", CommaJoined(NamesOf(hosts)), address) == Ok(c.(hosts := c.hosts + hosts))
  {
    CommasReadBack(NamesOf(hosts));
    HostsReadBack(hosts);
  }

  // every configuration, printed and read back

  function NameOf(h: Host): string { match h case Tcp(name) => name case Unix(path) => path }

  /** A host that a setting can name. */
  predicate IsNamed(h: Host) {
    match h
    case Tcp(name) => ',' !in name && (name != "" ==> name[0] != '/')
    case Unix(path) => ',' !in path && path != "" && path[0] == '/'
  }

  predicate PositiveOrUnset(n: Option<nat>) { n.Some? ==> 0 < n.value <= I64_MAX }

  /** A configuration that settings can express. */
  ghost predicate Expressible(c: Config, address: string -> bool) {
    && (forall i :: 0 <= i < |c.hosts| ==> IsNamed(c.hosts[i]))
    && (forall i :: 0 <= i < |c.hostaddrs| ==> ',' !in c.hostaddrs[i] && address(c.hostaddrs[i]))
    && (forall i :: 0 <= i < |c.ports| ==> c.ports[i] <= U16_MAX)
    && PositiveOrUnset(c.connectTimeout) && PositiveOrUnset(c.tcpUserTimeout)
    && 0 < c.keepalivesIdle <= I64_MAX && PositiveOrUnset(c.keepalivesInterval)
    && (c.keepalivesRetries.Some? ==> c.keepalivesRetries.value <= U32_MAX)
  }

  function Given(key: string, v: Option<string>): seq<Pair> { if v.None? then [] else [Pair(key, v.value, true)] }

  function Each(key: string, vs: seq<string>): seq<Pair> {
    if vs == [] then [] else [Pair(key, vs[0], true)] + Each(key, vs[1..])
  }

  function NamesOf(hosts: seq<Host>): (vs: seq<string>)
    ensures |vs| == |hosts| && forall i :: 0 <= i < |hosts| ==> vs[i] == NameOf(hosts[i])
  {
    seq(|hosts|, i requires 0 <= i < |hosts| => NameOf(hosts[i]))
  }

  function DigitsOf(ports: seq<nat>): (vs: seq<string>)
    ensures |vs| == |ports| && forall i :: 0 <= i < |ports| ==> vs[i] == DecimalDigits(ports[i])
  {
    seq(|ports|, i requires 0 <= i < |ports| => DecimalDigits(ports[i]))
  }

  function NameSettings(c: Config): seq<Pair> {
    Given("user", c.user) + (Given("password", c.password) + (Given("dbname", c.dbname)
      + (Given("options", c.options) + Given("application_name", c.applicationName))))
  }

  function ModeSettings(c: Config): seq<Pair> {
    [Pair("sslmode", SpelledSslMode(c.sslMode), true)]
      + ([Pair("sslnegotiation", SpelledNegotiation(c.sslNegotiation), true)]
      + ([Pair("target_session_attrs", SpelledTarget(c.targetSessionAttrs), true)]
      + ([Pair("channel_binding", SpelledBinding(c.channelBinding), true)]
      + ([Pair("load_balance_hosts", SpelledBalance(c.loadBalanceHosts), true)]
      + [Pair("opengauss_compat", if c.opengaussCompat then "true" else "false", true)]))))
  }

  function AddressSettings(c: Config): seq<Pair> {
    Each("host", NamesOf(c.hosts)) + (Each("hostaddr", c.hostaddrs) + Each("port", DigitsOf(c.ports)))
  }

  function NumberSettings(c: Config): seq<Pair> {
    Given("connect_timeout", Digits(c.connectTimeout)) + (Given("tcp_user_timeout", Digits(c.tcpUserTimeout))
      + ([Pair("keepalives", if c.keepalives then "1" else "0", true)]
      + ([Pair("keepalives_idle", DecimalDigits(c.keepalivesIdle), true)]
      + (Given("keepalives_interval", Digits(c.keepalivesInterval))
      + Given("keepalives_retries", Digits(c.keepalivesRetries))))))
  }

  function SettingsOf(c: Config): seq<Pair> {
    NameSettings(c) + (ModeSettings(c) + (AddressSettings(c) + NumberSettings(c)))
  }

  lemma ApplyOne(c: Config, p: Pair, more: seq<Pair>, address: string -> bool, c': Config)
    requires Param(c, p.key, p.value, address) == Ok(c')
    ensures ApplyAll(c, [p] + more, address) == ApplyAll(c', more, address)
  {
    assert ([p] + more)[1..] == more;
  }

  lemma ApplyGiven(c: Config, key: string, v: Option<string>, more: seq<Pair>, address: string -> bool, c': Config)
    requires if v.None? then c' == c else Param(c, key, v.value, address) == Ok(c')
    ensures ApplyAll(c, Given(key, v) + more, address) == ApplyAll(c', more, address)
  {
    if v.None? {
      AppendEmpty(more);
    } else {
      ApplyOne(c, Pair(key, v.value, true), more, address, c');
    }
  }

  // one lemma for each kind of key

  lemma TextParams(c: Config, v: string, address: string -> bool)
    ensures Param(c, "user", v, address) == Ok(c.(user := Some(v)))
    ensures Param(c, "password", v, address) == Ok(c.(password := Some(v)))
    ensures Param(c, "dbname", v, address) == Ok(c.(dbname := Some(v)))
    ensures Param(c, "options", v, address) == Ok(c.(options := Some(v)))
    ensures Param(c, "application_name", v, address) == Ok(c.(applicationName := Some(v)))
  {}

  lemma DigitsAreInt(n: nat, min: int, max: int)
    requires min <= 0 && n <= max
    ensures ParseInt(DecimalDigits(n), min, max) == Some(n)
  {
    DigitsReadBack(n);
    assert IsDigit(DecimalDigits(n)[0]);
  }

  lemma NumberParams(c: Config, n: nat, address: string -> bool)
    requires 0 < n <= I64_MAX
    ensures Param(c, "connect_timeout", DecimalDigits(n), address) == Ok(c.(connectTimeout := Some(n)))
    ensures Param(c, "tcp_user_timeout", DecimalDigits(n), address) == Ok(c.(tcpUserTimeout := Some(n)))
    ensures Param(c, "keepalives_idle", DecimalDigits(n), address) == Ok(c.(keepalivesIdle := n))
    ensures Param(c, "keepalives_interval", DecimalDigits(n), address) == Ok(c.(keepalivesInterval := Some(n)))
  {
    DigitsAreInt(n, -I64_MAX - 1, I64_MAX);
  }

  /** Zero leaves a timeout unset; for the keepalive idle time it leaves the default. */
  lemma ZeroLeavesUnset(c: Config, key: string, address: string -> bool)
    requires key in {"connect_timeout", "tcp_user_timeout", "keepalives_idle", "keepalives_interval"}
    ensures Param(c, key, "0", address) == Ok(c)
  {
    DigitsAreInt(0, -I64_MAX - 1, I64_MAX);
    assert DecimalDigits(0) == "0";
  }

  /** So does a negative number. */
  lemma NegativeLeavesUnset(c: Config, key: string, n: nat, address: string -> bool)
    requires key in {"connect_timeout", "tcp_user_timeout", "keepalives_idle", "keepalives_interval"} && n <= I64_MAX
    ensures Param(c, key, "-" + DecimalDigits(n), address) == Ok(c)
  {
    var v := "-" + DecimalDigits(n);
    DigitsReadBack(n);
    assert v[1..] == DecimalDigits(n);
    var m: int := n;
    var x: int := -m;
    assert ParseInt(v, -I64_MAX - 1, I64_MAX) == Some(x);
  }

  lemma RetriesParam(c: Config, n: nat, address: string -> bool)
    requires n <= U32_MAX
    ensures Param(c, "keepalives_retries", DecimalDigits(n), address) == Ok(c.(keepalivesRetries := Some(n)))
  {
    DigitsAreInt(n, 0, U32_MAX);
  }

  /** Any number but zero switches keepalives on. */
  lemma KeepalivesParam(c: Config, n: nat, address: string -> bool)
    requires n <= U64_MAX
    ensures Param(c, "keepalives", DecimalDigits(n), address) == Ok(c.(keepalives := n != 0))
  {
    DigitsAreInt(n, 0, U64_MAX);
  }

  lemma HostAdds(c: Config, h: Host, address: string -> bool)
    requires IsNamed(h)
    ensures Param(c, "host", NameOf(h), address) == Ok(c.(hosts := c.hosts + [h]))
  {
    HostReadBack(NameOf(h));
  }

  lemma HostaddrAdds(c: Config, a: string, address: string -> bool)
    requires ',' !in a && address(a)
    ensures Param(c, "hostaddr", a, address) == Ok(c.(hostaddrs := c.hostaddrs + [a]))
  {
    NoComma(a);
  }

  lemma PortAdds(c: Config, port: nat, address: string -> bool)
    requires port <= U16_MAX
    ensures Param(c, "port", DecimalDigits(port), address) == Ok(c.(ports := c.ports + [port]))
  {
    DigitsArePlain(port);
  }

  lemma HostApplied(c: Config, h: Host, vs: seq<string>, more: seq<Pair>, address: string -> bool, c': Config)
    requires IsNamed(h) && vs != [] && vs[0] == NameOf(h) && c' == c.(hosts := c.hosts + [h])
    ensures ApplyAll(c, Each("host", vs) + more, address) == ApplyAll(c', Each("host", vs[1..]) + more, address)
  {
    AppendAssoc([Pair("host", vs[0], true)], Each("host", vs[1..]), more);
    HostAdds(c, h, address);
    ApplyOne(c, Pair("host", vs[0], true), Each("host", vs[1..]) + more, address, c');
  }

  lemma HostsLeft(hosts: seq<Host>, before: seq<Host>, c: Config, c': Config, end: Config)
    requires hosts != [] && c.hosts == before && end == c.(hosts := before + hosts)
    requires c' == c.(hosts := before + [hosts[0]])
    ensures end == c'.(hosts := c'.hosts + hosts[1..]) && NamesOf(hosts)[1..] == NamesOf(hosts[1..])
  {
    assert before + [hosts[0]] + hosts[1..] == before + hosts;
  }

  lemma NoneGiven(c: Config, key: string, more: seq<Pair>, address: string -> bool)
    ensures ApplyAll(c, Each(key, []) + more, address) == ApplyAll(c, more, address)
  {
    AppendEmpty(more);
  }

  lemma {:induction false} HostsApplied(c: Config, hosts: seq<Host>, more: seq<Pair>, address: string -> bool, end: Config)
    requires forall i :: 0 <= i < |hosts| ==> IsNamed(hosts[i])
    requires end == c.(hosts := c.hosts + hosts)
    ensures ApplyAll(c, Each("host", NamesOf(hosts)) + more, address) == ApplyAll(end, more, address)
    decreases |hosts|
  {
    if hosts == [] {
      AppendEmpty(c.hosts);
      NoneGiven(c, "host", more, address);
    } else {
      var c' := c.(hosts := c.hosts + [hosts[0]]);
      HostsLeft(hosts, c.hosts, c, c', end);
      HostApplied(c, hosts[0], NamesOf(hosts), more, address, c');
      HostsApplied(c', hosts[1..], more, address, end);
    }
  }

  lemma HostaddrApplied(c: Config, vs: seq<string>, more: seq<Pair>, address: string -> bool, c': Config)
    requires vs != [] && ',' !in vs[0] && address(vs[0]) && c' == c.(hostaddrs := c.hostaddrs + [vs[0]])
    ensures ApplyAll(c, Each("hostaddr", vs) + more, address) == ApplyAll(c', Each("hostaddr", vs[1..]) + more, address)
  {
    AppendAssoc([Pair("hostaddr", vs[0], true)], Each("hostaddr", vs[1..]), more);
    HostaddrAdds(c, vs[0], address);
    ApplyOne(c, Pair("hostaddr", vs[0], true), Each("hostaddr", vs[1..]) + more, address, c');
  }

  lemma HostaddrsLeft(addrs: seq<string>, before: seq<string>, c: Config, c': Config, end: Config)
    requires addrs != [] && c.hostaddrs == before && end == c.(hostaddrs := before + addrs)
    requires c' == c.(hostaddrs := before + [addrs[0]])
    ensures end == c'.(hostaddrs := c'.hostaddrs + addrs[1..])
  {
    assert before + [addrs[0]] + addrs[1..] == before + addrs;
  }

  lemma {:induction false} HostaddrsApplied(c: Config, addrs: seq<string>, more: seq<Pair>, address: string -> bool, end: Config)
    requires forall i :: 0 <= i < |addrs| ==> ',' !in addrs[i] && address(addrs[i])
    requires end == c.(hostaddrs := c.hostaddrs + addrs)
    ensures ApplyAll(c, Each("hostaddr", addrs) + more, address) == ApplyAll(end, more, address)
    decreases |addrs|
  {
    if addrs == [] {
      AppendEmpty(c.hostaddrs);
      NoneGiven(c, "hostaddr", more, address);
    } else {
      var c' := c.(hostaddrs := c.hostaddrs + [addrs[0]]);
      HostaddrsLeft(addrs, c.hostaddrs, c, c', end);
      HostaddrApplied(c, addrs, more, address, c');
      HostaddrsApplied(c', addrs[1..], more, address, end);
    }
  }

  lemma PortApplied(c: Config, port: nat, vs: seq<string>, more: seq<Pair>, address: string -> bool, c': Config)
    requires port <= U16_MAX && vs != [] && vs[0] == DecimalDigits(port) && c' == c.(ports := c.ports + [port])
    ensures ApplyAll(c, Each("port", vs) + more, address) == ApplyAll(c', Each("port", vs[1..]) + more, address)
  {
    AppendAssoc([Pair("port", vs[0], true)], Each("port", vs[1..]), more);
    PortAdds(c, port, address);
    ApplyOne(c, Pair("port", vs[0], true), Each("port", vs[1..]) + more, address, c');
  }

  lemma PortsLeft(ports: seq<nat>, before: seq<nat>, c: Config, c': Config, end: Config)
    requires ports != [] && c.ports == before && end == c.(ports := before + ports)
    requires c' == c.(ports := before + [ports[0]])
    ensures end == c'.(ports := c'.ports + ports[1..]) && DigitsOf(ports)[1..] == DigitsOf(ports[1..])
  {
    assert before + [ports[0]] + ports[1..] == before + ports;
  }

  lemma {:induction false} PortsApplied(c: Config, ports: seq<nat>, more: seq<Pair>, address: string -> bool, end: Config)
    requires forall i :: 0 <= i < |ports| ==> ports[i] <= U16_MAX
    requires end == c.(ports := c.ports + ports)
    ensures ApplyAll(c, Each("port", DigitsOf(ports)) + more, address) == ApplyAll(end, more, address)
    decreases |ports|
  {
    if ports == [] {
      AppendEmpty(c.ports);
      NoneGiven(c, "port", more, address);
    } else {
      var c' := c.(ports := c.ports + [ports[0]]);
      PortsLeft(ports, c.ports, c, c', end);
      PortApplied(c, ports[0], DigitsOf(ports), more, address, c');
      PortsApplied(c', ports[1..], more, address, end);
    }
  }

  // the blocks of settings

  /** The names of `c`, everything else of `c0`. */
  function WithNames(c0: Config, c: Config): Config {
    c0.(user := c.user, password := c.password, dbname := c.dbname, options := c.options, applicationName := c.applicationName)
  }

  predicate NoNames(c: Config) {
    c.user.None? && c.password.None? && c.dbname.None? && c.options.None? && c.applicationName.None?
  }

  lemma GivenUser(c: Config, v: Option<string>, more: seq<Pair>, address: string -> bool, c': Config)
    requires c.user.None? && c' == c.(user := v)
    ensures ApplyAll(c, Given("user", v) + more, address) == ApplyAll(c', more, address)
  {
    if v.Some? {
      TextParams(c, v.value, address);
    }
    ApplyGiven(c, "user", v, more, address, c');
  }

  lemma GivenPassword(c: Config, v: Option<string>, more: seq<Pair>, address: string -> bool, c': Config)
    requires c.password.None? && c' == c.(password := v)
    ensures ApplyAll(c, Given("password", v) + more, address) == ApplyAll(c', more, address)
  {
    if v.Some? {
      TextParams(c, v.value, address);
    }
    ApplyGiven(c, "password", v, more, address, c');
  }

  lemma GivenDbname(c: Config, v: Option<string>, more: seq<Pair>, address: string -> bool, c': Config)
    requires c.dbname.None? && c' == c.(dbname := v)
    ensures ApplyAll(c, Given("dbname", v) + more, address) == ApplyAll(c', more, address)
  {
    if v.Some? {
      TextParams(c, v.value, address);
    }
    ApplyGiven(c, "dbname", v, more, address, c');
  }

  lemma GivenOptions(c: Config, v: Option<string>, more: seq<Pair>, address: string -> bool, c': Config)
    requires c.options.None? && c' == c.(options := v)
    ensures ApplyAll(c, Given("options", v) + more, address) == ApplyAll(c', more, address)
  {
    if v.Some? {
      TextParams(c, v.value, address);
    }
    ApplyGiven(c, "options", v, more, address, c');
  }

  lemma GivenApplicationName(c: Config, v: Option<string>, more: seq<Pair>, address: string -> bool, c': Config)
    requires c.applicationName.None? && c' == c.(applicationName := v)
    ensures ApplyAll(c, Given("application_name", v) + more, address) == ApplyAll(c', more, address)
  {
    if v.Some? {
      TextParams(c, v.value, address);
    }
    ApplyGiven(c, "application_name", v, more, address, c');
  }

  lemma FiveAndMore<T>(a: seq<T>, b: seq<T>, c: seq<T>, d: seq<T>, e: seq<T>, more: seq<T>)
    ensures a + (b + (c + (d + e))) + more == a + (b + (c + (d + (e + more))))
  {
    AppendAssoc(d, e, more);
    AppendAssoc(c, d + e, more);
    AppendAssoc(b, c + (d + e), more);
    AppendAssoc(a, b + (c + (d + e)), more);
  }

  lemma NamesApplied(c0: Config, c: Config, more: seq<Pair>, address: string -> bool)
    requires NoNames(c0)
    ensures ApplyAll(c0, NameSettings(c) + more, address) == ApplyAll(WithNames(c0, c), more, address)
  {
    var g5 := Given("application_name", c.applicationName) + more;
    var g4 := Given("options", c.options) + g5;
    var g3 := Given("dbname", c.dbname) + g4;
    var g2 := Given("password", c.password) + g3;
    FiveAndMore(Given("user", c.user), Given("password", c.password), Given("dbname", c.dbname),
                Given("options", c.options), Given("application_name", c.applicationName), more);
    var c1 := c0.(user := c.user);
    var c2 := c1.(password := c.password);
    var c3 := c2.(dbname := c.dbname);
    var c4 := c3.(options := c.options);
    GivenUser(c0, c.user, g2, address, c1);
    GivenPassword(c1, c.password, g3, address, c2);
    GivenDbname(c2, c.dbname, g4, address, c3);
    GivenOptions(c3, c.options, g5, address, c4);
    GivenApplicationName(c4, c.applicationName, more, address, WithNames(c0, c));
  }

  function WithModes(c0: Config, c: Config): Config {
    c0.(sslMode := c.sslMode, sslNegotiation := c.sslNegotiation, targetSessionAttrs := c.targetSessionAttrs,
        channelBinding := c.channelBinding, loadBalanceHosts := c.loadBalanceHosts, opengaussCompat := c.opengaussCompat)
  }

  lemma ModesApplied(c0: Config, c: Config, more: seq<Pair>, address: string -> bool)
    ensures ApplyAll(c0, ModeSettings(c) + more, address) == ApplyAll(WithModes(c0, c), more, address)
  {
    var p1, p2 := Pair("sslmode", SpelledSslMode(c.sslMode), true), Pair("sslnegotiation", SpelledNegotiation(c.sslNegotiation), true);
    var p3 := Pair("target_session_attrs", SpelledTarget(c.targetSessionAttrs), true);
    var p4 := Pair("channel_binding", SpelledBinding(c.channelBinding), true);
    var p5 := Pair("load_balance_hosts", SpelledBalance(c.loadBalanceHosts), true);
    var p6 := Pair("opengauss_compat", if c.opengaussCompat then "true" else "false", true);
    var g6 := [p6] + more;
    var g5 := [p5] + g6;
    var g4 := [p4] + g5;
    var g3 := [p3] + g4;
    var g2 := [p2] + g3;
    assert ModeSettings(c) + more == [p1] + g2;
    var c1 := c0.(sslMode := c.sslMode);
    var c2 := c1.(sslNegotiation := c.sslNegotiation);
    var c3 := c2.(targetSessionAttrs := c.targetSessionAttrs);
    var c4 := c3.(channelBinding := c.channelBinding);
    var c5 := c4.(loadBalanceHosts := c.loadBalanceHosts);
    var c6 := c5.(opengaussCompat := c.opengaussCompat);
    SslModeExactly(c0, p1.value, c1, address);
    ApplyOne(c0, p1, g2, address, c1);
    NegotiationExactly(c1, p2.value, c2, address);
    ApplyOne(c1, p2, g3, address, c2);
    TargetExactly(c2, p3.value, c3, address);
    ApplyOne(c2, p3, g4, address, c3);
    BindingExactly(c3, p4.value, c4, address);
    ApplyOne(c3, p4, g5, address, c4);
    BalanceExactly(c4, p5.value, c5, address);
    ApplyOne(c4, p5, g6, address, c5);
    CompatExactly(c5, p6.value, c6, address);
    ApplyOne(c5, p6, more, address, c6);
  }

  lemma AddressesApplied(c0: Config, c: Config, more: seq<Pair>, address: string -> bool)
    requires Expressible(c, address) && c0.hosts == [] && c0.hostaddrs == [] && c0.ports == []
    ensures ApplyAll(c0, AddressSettings(c) + more, address) ==
            ApplyAll(c0.(hosts := c.hosts, hostaddrs := c.hostaddrs, ports := c.ports), more, address)
  {
    var g3 := Each("port", DigitsOf(c.ports)) + more;
    var g2 := Each("hostaddr", c.hostaddrs) + g3;
    assert AddressSettings(c) + more == Each("host", NamesOf(c.hosts)) + g2;
    var c1 := c0.(hosts := c.hosts);
    var c2 := c1.(hostaddrs := c.hostaddrs);
    AppendEmpty(c.hosts);
    AppendEmpty(c.hostaddrs);
    AppendEmpty(c.ports);
    HostsApplied(c0, c.hosts, g2, address, c1);
    HostaddrsApplied(c1, c.hostaddrs, g3, address, c2);
    PortsApplied(c2, c.ports, more, address, c2.(ports := c.ports));
  }

  function WithNumbers(c0: Config, c: Config): Config {
    c0.(connectTimeout := c.connectTimeout, tcpUserTimeout := c.tcpUserTimeout, keepalives := c.keepalives,
        keepalivesIdle := c.keepalivesIdle, keepalivesInterval := c.keepalivesInterval, keepalivesRetries := c.keepalivesRetries)
  }

  lemma TimeoutsApplied(c0: Config, c: Config, more: seq<Pair>, address: string -> bool)
    requires PositiveOrUnset(c.connectTimeout) && PositiveOrUnset(c.tcpUserTimeout)
    requires c0.connectTimeout.None? && c0.tcpUserTimeout.None?
    ensures ApplyAll(c0, Given("connect_timeout", Digits(c.connectTimeout)) + (Given("tcp_user_timeout", Digits(c.tcpUserTimeout)) + more), address)
            == ApplyAll(c0.(connectTimeout := c.connectTimeout, tcpUserTimeout := c.tcpUserTimeout), more, address)
  {
    var c1 := c0.(connectTimeout := c.connectTimeout);
    var c2 := c1.(tcpUserTimeout := c.tcpUserTimeout);
    if c.connectTimeout.Some? {
      NumberParams(c0, c.connectTimeout.value, address);
    }
    ApplyGiven(c0, "connect_timeout", Digits(c.connectTimeout), Given("tcp_user_timeout", Digits(c.tcpUserTimeout)) + more, address, c1);
    if c.tcpUserTimeout.Some? {
      NumberParams(c1, c.tcpUserTimeout.value, address);
    }
    ApplyGiven(c1, "tcp_user_timeout", Digits(c.tcpUserTimeout), more, address, c2);
  }

  lemma IntervalsApplied(c0: Config, c: Config, more: seq<Pair>, address: string -> bool)
    requires PositiveOrUnset(c.keepalivesInterval) && (c.keepalivesRetries.Some? ==> c.keepalivesRetries.value <= U32_MAX)
    requires c0.keepalivesInterval.None? && c0.keepalivesRetries.None?
    ensures ApplyAll(c0, Given("keepalives_interval", Digits(c.keepalivesInterval)) + (Given("keepalives_retries", Digits(c.keepalivesRetries)) + more), address)
            == ApplyAll(c0.(keepalivesInterval := c.keepalivesInterval, keepalivesRetries := c.keepalivesRetries), more, address)
  {
    var c1 := c0.(keepalivesInterval := c.keepalivesInterval);
    var c2 := c1.(keepalivesRetries := c.keepalivesRetries);
    if c.keepalivesInterval.Some? {
      NumberParams(c0, c.keepalivesInterval.value, address);
    }
    ApplyGiven(c0, "keepalives_interval", Digits(c.keepalivesInterval), Given("keepalives_retries", Digits(c.keepalivesRetries)) + more, address, c1);
    if c.keepalivesRetries.Some? {
      RetriesParam(c1, c.keepalivesRetries.value, address);
    }
    ApplyGiven(c1, "keepalives_retries", Digits(c.keepalivesRetries), more, address, c2);
  }

  lemma KeepalivesApplied(c0: Config, c: Config, p: Pair, q: Pair, more: seq<Pair>, address: string -> bool, end: Config)
    requires p == Pair("keepalives", if c.keepalives then "1" else "0", true) && 0 < c.keepalivesIdle <= I64_MAX
    requires q == Pair("keepalives_idle", DecimalDigits(c.keepalivesIdle), true)
    requires end == c0.(keepalives := c.keepalives, keepalivesIdle := c.keepalivesIdle)
    ensures ApplyAll(c0, [p] + ([q] + more), address) == ApplyAll(end, more, address)
  {
    var c1 := c0.(keepalives := c.keepalives);
    KeepalivesParam(c0, if c.keepalives then 1 else 0, address);
    assert DecimalDigits(1) == "1" && DecimalDigits(0) == "0";
    ApplyOne(c0, p, [q] + more, address, c1);
    NumberParams(c1, c.keepalivesIdle, address);
    ApplyOne(c1, q, more, address, end);
  }

  lemma SixAndMore<T>(a: seq<T>, b: seq<T>, c: seq<T>, d: seq<T>, e: seq<T>, f: seq<T>, more: seq<T>)
    ensures a + (b + (c + (d + (e + f)))) + more == a + (b + (c + (d + (e + (f + more)))))
  {
    FiveAndMore(b, c, d, e, f, more);
    AppendAssoc(a, b + (c + (d + (e + f))), more);
  }

  lemma NumbersApplied(c0: Config, c: Config, more: seq<Pair>, address: string -> bool)
    requires Expressible(c, address) && c0.connectTimeout.None? && c0.tcpUserTimeout.None?
    requires c0.keepalivesInterval.None? && c0.keepalivesRetries.None?
    ensures ApplyAll(c0, NumberSettings(c) + more, address) == ApplyAll(WithNumbers(c0, c), more, address)
  {
    var p := Pair("keepalives", if c.keepalives then "1" else "0", true);
    var q := Pair("keepalives_idle", DecimalDigits(c.keepalivesIdle), true);
    var t1, t2 := Given("connect_timeout", Digits(c.connectTimeout)), Given("tcp_user_timeout", Digits(c.tcpUserTimeout));
    var t5, t6 := Given("keepalives_interval", Digits(c.keepalivesInterval)), Given("keepalives_retries", Digits(c.keepalivesRetries));
    SixAndMore(t1, t2, [p], [q], t5, t6, more);
    var c2 := c0.(connectTimeout := c.connectTimeout, tcpUserTimeout := c.tcpUserTimeout);
    var c4 := c2.(keepalives := c.keepalives, keepalivesIdle := c.keepalivesIdle);
    TimeoutsApplied(c0, c, [p] + ([q] + (t5 + (t6 + more))), address);
    KeepalivesApplied(c2, c, p, q, t5 + (t6 + more), address, c4);
    IntervalsApplied(c4, c, more, address);
  }

  ghost predicate AllQuoted(ps: seq<Pair>) { forall i :: 0 <= i < |ps| ==> IsKey(ps[i].key) && ps[i].quoted }

  lemma AppendQuoted(ps: seq<Pair>, qs: seq<Pair>)
    requires AllQuoted(ps) && AllQuoted(qs)
    ensures AllQuoted(ps + qs)
  {}

  lemma {:induction false} EachQuoted(key: string, vs: seq<string>)
    requires IsKey(key)
    ensures AllQuoted(Each(key, vs))
  {
    if vs != [] {
      EachQuoted(key, vs[1..]);
    }
  }

  lemma AddressesQuoted(c: Config)
    ensures AllQuoted(AddressSettings(c))
  {
    EachQuoted("host", NamesOf(c.hosts));
    EachQuoted("hostaddr", c.hostaddrs);
    EachQuoted("port", DigitsOf(c.ports));
    AppendQuoted(Each("hostaddr", c.hostaddrs), Each("port", DigitsOf(c.ports)));
    AppendQuoted(Each("host", NamesOf(c.hosts)), Each("hostaddr", c.hostaddrs) + Each("port", DigitsOf(c.ports)));
  }

  lemma OneQuoted(key: string, v: Option<string>)
    requires IsKey(key)
    ensures AllQuoted(Given(key, v)) && AllQuoted([Pair(key, if v.Some? then v.value else "", true)])
  {}

  lemma FiveQuoted(a: seq<Pair>, b: seq<Pair>, c: seq<Pair>, d: seq<Pair>, e: seq<Pair>)
    requires AllQuoted(a) && AllQuoted(b) && AllQuoted(c) && AllQuoted(d) && AllQuoted(e)
    ensures AllQuoted(a + (b + (c + (d + e))))
  {
    AppendQuoted(d, e);
    AppendQuoted(c, d + e);
    AppendQuoted(b, c + (d + e));
    AppendQuoted(a, b + (c + (d + e)));
  }

  lemma NameKeys()
    ensures IsKey("user") && IsKey("password") && IsKey("dbname") && IsKey("options") && IsKey("application_name")
  {}

  lemma NamesQuoted(c: Config)
    ensures AllQuoted(NameSettings(c))
  {
    NameKeys();
    OneQuoted("user", c.user);
    OneQuoted("password", c.password);
    OneQuoted("dbname", c.dbname);
    OneQuoted("options", c.options);
    OneQuoted("application_name", c.applicationName);
    FiveQuoted(Given("user", c.user), Given("password", c.password), Given("dbname", c.dbname),
               Given("options", c.options), Given("application_name", c.applicationName));
  }

  lemma ModeKeys()
    ensures IsKey("sslmode") && IsKey("sslnegotiation") && IsKey("target_session_attrs")
    ensures IsKey("channel_binding") && IsKey("load_balance_hosts") && IsKey("opengauss_compat")
  {}

  lemma ModesQuoted(c: Config)
    ensures AllQuoted(ModeSettings(c))
  {
    var v1, v2, v3 := SpelledSslMode(c.sslMode), SpelledNegotiation(c.sslNegotiation), SpelledTarget(c.targetSessionAttrs);
    var v4, v5 := SpelledBinding(c.channelBinding), SpelledBalance(c.loadBalanceHosts);
    var v6 := if c.opengaussCompat then "true" else "false";
    ModeKeys();
    OneQuoted("sslmode", Some(v1));
    OneQuoted("sslnegotiation", Some(v2));
    OneQuoted("target_session_attrs", Some(v3));
    OneQuoted("channel_binding", Some(v4));
    OneQuoted("load_balance_hosts", Some(v5));
    OneQuoted("opengauss_compat", Some(v6));
    SixQuoted([Pair("sslmode", v1, true)], [Pair("sslnegotiation", v2, true)], [Pair("target_session_attrs", v3, true)],
              [Pair("channel_binding", v4, true)], [Pair("load_balance_hosts", v5, true)], [Pair("opengauss_compat", v6, true)]);
  }

  lemma NumberKeys()
    ensures IsKey("connect_timeout") && IsKey("tcp_user_timeout") && IsKey("keepalives")
    ensures IsKey("keepalives_idle") && IsKey("keepalives_interval") && IsKey("keepalives_retries")
  {}

  lemma NumbersQuoted(c: Config)
    ensures AllQuoted(NumberSettings(c))
  {
    var t1, t2 := Given("connect_timeout", Digits(c.connectTimeout)), Given("tcp_user_timeout", Digits(c.tcpUserTimeout));
    var t5, t6 := Given("keepalives_interval", Digits(c.keepalivesInterval)), Given("keepalives_retries", Digits(c.keepalivesRetries));
    var v, w := if c.keepalives then "1" else "0", DecimalDigits(c.keepalivesIdle);
    var t3, t4 := [Pair("keepalives", v, true)], [Pair("keepalives_idle", w, true)];
    NumberKeys();
    OneQuoted("connect_timeout", Digits(c.connectTimeout));
    OneQuoted("tcp_user_timeout", Digits(c.tcpUserTimeout));
    OneQuoted("keepalives", Some(v));
    OneQuoted("keepalives_idle", Some(w));
    OneQuoted("keepalives_interval", Digits(c.keepalivesInterval));
    OneQuoted("keepalives_retries", Digits(c.keepalivesRetries));
    SixQuoted(t1, t2, t3, t4, t5, t6);
  }

  lemma SixQuoted(a: seq<Pair>, b: seq<Pair>, c: seq<Pair>, d: seq<Pair>, e: seq<Pair>, f: seq<Pair>)
    requires AllQuoted(a) && AllQuoted(b) && AllQuoted(c) && AllQuoted(d) && AllQuoted(e) && AllQuoted(f)
    ensures AllQuoted(a + (b + (c + (d + (e + f)))))
  {
    FiveQuoted(b, c, d, e, f);
    AppendQuoted(a, b + (c + (d + (e + f))));
  }

  lemma SettingsQuoted(c: Config)
    ensures AllQuoted(SettingsOf(c))
  {
    NamesQuoted(c);
    ModesQuoted(c);
    AddressesQuoted(c);
    NumbersQuoted(c);
    AppendQuoted(AddressSettings(c), NumberSettings(c));
    AppendQuoted(ModeSettings(c), AddressSettings(c) + NumberSettings(c));
    AppendQuoted(NameSettings(c), ModeSettings(c) + (AddressSettings(c) + NumberSettings(c)));
  }

  lemma SettingsApplied(c: Config, address: string -> bool)
    requires Expressible(c, address)
    ensures ApplyAll(DEFAULT, SettingsOf(c), address) == Ok(c)
  {
    var c1 := WithNames(DEFAULT, c);
    var c2 := WithModes(c1, c);
    var c3 := c2.(hosts := c.hosts, hostaddrs := c.hostaddrs, ports := c.ports);
    NamesApplied(DEFAULT, c, ModeSettings(c) + (AddressSettings(c) + NumberSettings(c)), address);
    ModesApplied(c1, c, AddressSettings(c) + NumberSettings(c), address);
    AddressesApplied(c2, c, NumberSettings(c), address);
    AppendEmpty(NumberSettings(c));
    NumbersApplied(c3, c, [], address);
    assert WithNumbers(c3, c) == c;
  }

  /** Every configuration that settings can express, printed setting by setting and parsed, is read back as it was. */
  lemma ConfigRoundTrip(c: Config, address: string -> bool)
    requires Expressible(c, address)
    ensures Parse(Joined(SettingsOf(c)), DEFAULT, address) == Ok(c)
  {
    SettingsQuoted(c);
    assert AllPrintable(SettingsOf(c));
    PrintedParses(SettingsOf(c), DEFAULT, address);
    SettingsApplied(c, address);
  }

  // ---------------------------------------------------------------------------
  // The parser object
  // ---------------------------------------------------------------------------

  class Parser {
    const s: string
    var pos: nat

    ghost predicate Valid()
      reads this
    {
      pos <= |s|
    }

    /** What is left of the text. */
    ghost function Rest(): string
      reads this
      requires Valid()
    {
      s[pos..]
    }

    constructor (s: string)
      ensures Valid() && Rest() == s && this.s == s
    {
      this.s, pos := s, 0;
    }

    method TakeChars(f: char -> bool) returns (text: string)
      requires Valid()
      modifies this
      ensures Valid() && Lexed(text, Rest()) == TakeWhile(f, old(Rest()))
    {
      var start := pos;
      assert s[start..pos] == "";
      while pos < |s| && f(s[pos])
        invariant start <= pos <= |s|
        invariant TakeWhile(f, s[start..]) ==
                  Lexed(s[start..pos] + TakeWhile(f, s[pos..]).text, TakeWhile(f, s[pos..]).rest)
      {
        assert s[pos..][1..] == s[pos + 1..];
        assert s[start..pos + 1] == s[start..pos] + [s[pos]];
        AppendAssoc(s[start..pos], [s[pos]], TakeWhile(f, s[pos + 1..]).text);
        pos := pos + 1;
      }
      AppendEmpty(s[start..pos]);
      return s[start..pos];
    }

    method Eat(target: char) returns (error: Option<ParseError>)
      requires Valid()
      modifies this
      ensures Valid()
      ensures var rest := old(Rest());
              if rest == "" then error == Some(UnexpectedEof)
              else if rest[0] != target then error == Some(UnexpectedCharacter)
              else error == None && Rest() == rest[1..]
    {
      if pos == |s| {
        return Some(UnexpectedEof);
      }
      var c := s[pos];
      pos := pos + 1;
      return if c == target then None else Some(UnexpectedCharacter);
    }

    method EatIf(target: char) returns (eaten: bool)
      requires Valid()
      modifies this
      ensures Valid()
      ensures eaten <==> old(Rest()) != "" && old(Rest())[0] == target
      ensures Rest() == if eaten then old(Rest())[1..] else old(Rest())
    {
      eaten := pos < |s| && s[pos] == target;
      if eaten {
        pos := pos + 1;
      }
    }

    method TakeSimpleValue() returns (r: Result<string, ParseError>)
      requires Valid()
      modifies this
      ensures Valid()
      ensures var l := SimpleValue(old(Rest()));
              Rest() == l.rest && r == if l.text == "" then Err(UnexpectedEof) else Ok(l.text)
    {
      var value := "";
      ghost var all := SimpleValue(s[pos..]);
      while pos < |s| && !IsWhitespace(s[pos])
        invariant pos <= |s|
        invariant all == Lexed(value + SimpleValue(s[pos..]).text, SimpleValue(s[pos..]).rest)
        decreases |s| - pos
      {
        var c := s[pos];
        ghost var here := s[pos..];
        pos := pos + 1;
        assert here[1..] == s[pos..];
        if c == '\\' {
          if pos < |s| {
            assert here[2..] == s[pos + 1..];
            AppendAssoc(value, [s[pos]], SimpleValue(s[pos + 1..]).text);
            value := value + [s[pos]];
            pos := pos + 1;
          }
        } else {
          AppendAssoc(value, [c], SimpleValue(s[pos..]).text);
          value := value + [c];
        }
      }
      AppendEmpty(value);
      return if value == "" then Err(UnexpectedEof) else Ok(value);
    }

    method TakeQuotedValue() returns (r: Result<string, ParseError>)
      requires Valid()
      modifies this
      ensures Valid()
      ensures match QuotedValue(old(Rest()))
              case None => r == Err(Unterminated)
              case Some(l) => r == Ok(l.text) && Rest() == l.rest
    {
      var value := "";
      ghost var all := QuotedValue(s[pos..]);
      NothingPushed(all);
      while pos < |s|
        invariant pos <= |s|
        invariant all == PushAll(value, QuotedValue(s[pos..]))
        decreases |s| - pos
      {
        var c := s[pos];
        ghost var here := s[pos..];
        if c == '\'' {
          AppendEmpty(value);
          return Ok(value);
        }
        pos := pos + 1;
        assert here[1..] == s[pos..];
        if c == '\\' {
          if pos < |s| {
            assert here[2..] == s[pos + 1..];
            PushAllStep(value, s[pos], QuotedValue(s[pos + 1..]));
            value := value + [s[pos]];
            pos := pos + 1;
          }
        } else {
          PushAllStep(value, c, QuotedValue(s[pos..]));
          value := value + [c];
        }
      }
      return Err(Unterminated);
    }

    method TakeValue() returns (r: Result<string, ParseError>)
      requires Valid()
      modifies this
      ensures Valid()
      ensures match Value(old(Rest()))
              case Err(e) => r == Err(e)
              case Ok(l) => r == Ok(l.text) && Rest() == l.rest
    {
      var quoted := EatIf('\'');
      if !quoted {
        r := TakeSimpleValue();
        return;
      }
      r := TakeQuotedValue();
      if r.Ok? {
        var _ := Eat('\'');
      }
    }

    method TakeParameter() returns (r: Result<Option<(string, string)>, ParseError>)
      requires Valid()
      modifies this
      ensures Valid()
      ensures match ReadParameter(old(Rest()))
              case Err(e) => r == Err(e)
              case Ok(NoParameter) => r == Ok(None)
              case Ok(Parameter(key, value, rest)) => r == Ok(Some((key, value))) && Rest() == rest
    {
      var _ := TakeChars(IsWhitespace);
      var keyword := TakeChars(IsKeyChar);
      if keyword == "" {
        return Ok(None);
      }
      var _ := TakeChars(IsWhitespace);
      var error := Eat('=');
      if error.Some? {
        return Err(error.value);
      }
      var _ := TakeChars(IsWhitespace);
      var value := TakeValue();
      return if value.Err? then Err(value.error) else Ok(Some((keyword, value.value)));
    }
  }

  method ParseText(s: string, address: string -> bool) returns (r: Result<Config, ParseError>)
    ensures r == Parse(s, DEFAULT, address)
  {
    var parser := new Parser(s);
    var config := DEFAULT;
    while true
      invariant parser.Valid()
      invariant Parse(parser.Rest(), config, address) == Parse(s, DEFAULT, address)
      decreases |parser.Rest()|
    {
      var p := parser.TakeParameter();
      if p.Err? {
        return Err(p.error);
      }
      if p.value.None? {
        return Ok(config);
      }
      var applied := Param(config, p.value.value.0, p.value.value.1, address);
      if applied.Err? {
        return applied;
      }
      config := applied.value;
    }
  }

  /** `text` in front of what is still to be read. */
  function PushAll(text: string, l: Option<Lexed>): Option<Lexed> {
    if l.None? then None else Some(Lexed(text + l.value.text, l.value.rest))
  }

  lemma NothingPushed(l: Option<Lexed>)
    ensures PushAll("", l) == l
  {
    if l.Some? {
      AppendEmpty(l.value.text);
    }
  }

  lemma PushAllStep(text: string, c: char, l: Option<Lexed>)
    ensures PushAll(text, PushTo(c, l)) == PushAll(text + [c], l)
  {
    if l.Some? {
      AppendAssoc(text, [c], l.value.text);
    }
  }
}
