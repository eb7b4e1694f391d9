/**
 Login: authentication, then the server's settings up to the first ReadyForQuery. Hashing
 and the verification of SCRAM messages are given as functions.
 */
module Login {
  import opened Wrappers
  import opened Bytes
  import opened Sequences
  import opened Framing

  const SCRAM := "SCRAM-SHA-256"
  const SCRAM_PLUS := "SCRAM-SHA-256-PLUS"

  const PLAIN_PASSWORD := 0
  const MD5_PASSWORD := 1
  const SHA256_PASSWORD := 2

  /** What an openGauss SHA-256 request carries, and whether hashing with it works. */
  datatype Sha256Body = Sha256Body(stored: int, hasSalt: bool, hasToken: bool, hasMd5Salt: bool, hashes: bool)

  datatype Message =
    | NegotiateProtocolVersion
    | AuthenticationOk | CleartextPassword | Md5Password
    | Sha256Password(request: Sha256Body) | Md5Sha256Password(hashes: bool) | Sm3Password(hashes: bool)
    | Sasl(mechanisms: seq<string>) | SaslContinue(data: seq<byte>) | SaslFinal(data: seq<byte>)
    | UnsupportedAuthentication
    | BackendKeyData(process: int, secret: int) | ParameterStatus(name: string, value: string)
    | NoticeResponse(body: seq<byte>) | ReadyForQuery | ErrorResponse | Other

  /** A message, or a failure of the stream; after the last one the stream is closed. */
  datatype Input = Received(message: Message) | StreamError

  datatype ChannelBindingMode = Disable | Prefer | Require

  datatype Config = Config(mode: ChannelBindingMode, password: Option<string>, endpoint: Option<seq<byte>>)

  /** What the client tells the server about channel binding. */
  datatype Binding = ServerEndPoint(data: seq<byte>) | Unrequested | Unsupported

  /** Whether the server's first and last SCRAM message are accepted. */
  datatype Verifier = Verifier(
    update: (Binding, seq<byte>) -> bool, finish: (Binding, seq<byte>, seq<byte>) -> bool)

  datatype Sent = Password | SaslInitial(mechanism: string, binding: Binding) | SaslResponse

  datatype LoginError = ClosedByServer | IoError | DatabaseError | Unexpected | Refused | PasswordMissing

  /** The result, what is left of the input, and what was sent. */
  datatype Run<+T> = Run(result: Result<T, LoginError>, rest: seq<Input>, sent: seq<Sent>)

  datatype Unit = Unit

  // ---------------------------------------------------------------------------
  // Authentication
  // ---------------------------------------------------------------------------

  /** The next message, skipping nothing. */
  function NextMessage(input: seq<Input>): Result<Message, LoginError> {
    if input == [] then Err(ClosedByServer) else if input[0].StreamError? then Err(IoError) else Ok(input[0].message)
  }

  function AfterNext(input: seq<Input>): seq<Input> { if input == [] then [] else input[1..] }

  function SkipNegotiation(input: seq<Input>): seq<Input> {
    if input != [] && input[0] == Received(NegotiateProtocolVersion) then SkipNegotiation(input[1..]) else input
  }

  /** The error for a message that is not the one awaited. */
  function NotAwaited(m: Result<Message, LoginError>): LoginError {
    match m
    case Err(e) => e
    case Ok(message) => if message.ErrorResponse? then DatabaseError else Unexpected
  }

  function CanSkipBinding(c: Config): bool { c.mode != Require }

  /** What binding and mechanism the client answers a SASL request with. */
  function Choose(c: Config, mechanisms: seq<string>): Option<(Binding, string)> {
    var bound := c.endpoint.Some? && c.mode != Disable;
    if SCRAM_PLUS in mechanisms then
      Some(if bound then (ServerEndPoint(c.endpoint.value), SCRAM_PLUS) else (Unsupported, SCRAM))
    else if SCRAM in mechanisms then
      Some(if bound then (Unrequested, SCRAM) else (Unsupported, SCRAM))
    else None
  }

  function AuthenticateSasl(c: Config, v: Verifier, mechanisms: seq<string>, input: seq<Input>): Run<Unit> {
    if c.password.None? then Run(Err(PasswordMissing), input, [])
    else
      match Choose(c, mechanisms)
      case None => Run(Err(Refused), input, [])
      case Some((binding, mechanism)) =>
        if mechanism != SCRAM_PLUS && !CanSkipBinding(c) then Run(Err(Refused), input, [])
        else
          var sent := [SaslInitial(mechanism, binding)];
          var m1, rest1 := NextMessage(input), AfterNext(input);
          if !(m1.Ok? && m1.value.SaslContinue?) then Run(Err(NotAwaited(m1)), rest1, sent)
          else if !v.update(binding, m1.value.data) then Run(Err(Refused), rest1, sent)
          else
            var m2, rest2 := NextMessage(rest1), AfterNext(rest1);
            if !(m2.Ok? && m2.value.SaslFinal?) then Run(Err(NotAwaited(m2)), rest2, sent + [SaslResponse])
            else if !v.finish(binding, m1.value.data, m2.value.data) then Run(Err(Refused), rest2, sent + [SaslResponse])
            else Run(Ok(Unit), rest2, sent + [SaslResponse])
  }

  /** Answers a request for a password; whether the answer can be computed depends on the request. */
  function AnswerPassword(c: Config, m: Message): Result<Sent, LoginError> {
    if !CanSkipBinding(c) then Err(Refused)
    else if c.password.None? then Err(PasswordMissing)
    else
      match m
      case Sha256Password(body) =>
        if body.stored == SHA256_PASSWORD || body.stored == PLAIN_PASSWORD then
          if body.hasSalt && body.hasToken && body.hashes then Ok(Password) else Err(Refused)
        else if body.stored == MD5_PASSWORD then if body.hasMd5Salt then Ok(Password) else Err(Refused)
        else Err(Refused)
      case Md5Sha256Password(hashes) => if hashes then Ok(Password) else Err(Refused)
      case Sm3Password(hashes) => if hashes then Ok(Password) else Err(Refused)
      case _ => Ok(Password)
  }

  predicate AsksForPassword(m: Message) {
    m.CleartextPassword? || m.Md5Password? || m.Sha256Password? || m.Md5Sha256Password? || m.Sm3Password?
  }

  function AwaitOk(input: seq<Input>, sent: seq<Sent>): Run<Unit> {
    var m := NextMessage(input);
    Run(if m == Ok(AuthenticationOk) then Ok(Unit) else Err(NotAwaited(m)), AfterNext(input), sent)
  }

  function Authenticate(c: Config, v: Verifier, input: seq<Input>): Run<Unit> {
    var start := SkipNegotiation(input);
    var m, rest := NextMessage(start), AfterNext(start);
    if m.Err? then Run(Err(m.error), rest, [])
    else if m.value.AuthenticationOk? then Run(if CanSkipBinding(c) then Ok(Unit) else Err(Refused), rest, [])
    else if AsksForPassword(m.value) then
      match AnswerPassword(c, m.value)
      case Err(e) => Run(Err(e), rest, [])
      case Ok(sent) => AwaitOk(rest, [sent])
    else if m.value.Sasl? then
      var r := AuthenticateSasl(c, v, m.value.mechanisms, rest);
      if r.result.Err? then r else AwaitOk(r.rest, r.sent)
    else if m.value.UnsupportedAuthentication? then Run(Err(Refused), rest, [])
    else Run(Err(NotAwaited(m)), rest, [])
  }

  // ---------------------------------------------------------------------------
  // What authentication guarantees
  // ---------------------------------------------------------------------------

  /** The four messages of a login with SCRAM bound to the channel. */
  datatype BoundRun = BoundRun(mechanisms: seq<string>, first: seq<byte>, last: seq<byte>)

  function Messages4(r: BoundRun): seq<Input> {
    [Received(Sasl(r.mechanisms)), Received(SaslContinue(r.first)), Received(SaslFinal(r.last)), Received(AuthenticationOk)]
  }

  function Negotiations(n: nat): (input: seq<Input>)
    ensures |input| == n
    ensures forall i :: 0 <= i < n ==> input[i] == Received(NegotiateProtocolVersion)
  {
    seq(n, _ => Received(NegotiateProtocolVersion))
  }

  /** The run proves the server's identity for this very channel. */
  ghost predicate Proves(c: Config, v: Verifier, r: BoundRun) {
    && c.password.Some? && c.endpoint.Some? && SCRAM_PLUS in r.mechanisms
    && v.update(ServerEndPoint(c.endpoint.value), r.first)
    && v.finish(ServerEndPoint(c.endpoint.value), r.first, r.last)
  }

  ghost predicate BoundLogin(c: Config, v: Verifier, input: seq<Input>, n: nat, r: BoundRun, rest: seq<Input>) {
    input == Negotiations(n) + (Messages4(r) + rest) && Proves(c, v, r)
  }

  lemma {:induction false} SkipsNegotiations(n: nat, rest: seq<Input>)
    requires rest != [] && rest[0] != Received(NegotiateProtocolVersion)
    ensures SkipNegotiation(Negotiations(n) + rest) == rest
  {
    if n == 0 {
      assert Negotiations(0) + rest == rest;
    } else {
      SkipsNegotiations(n - 1, rest);
      assert (Negotiations(n) + rest)[1..] == Negotiations(n - 1) + rest;
    }
  }

  lemma {:induction false} SkippedAre(input: seq<Input>) returns (n: nat)
    ensures input == Negotiations(n) + SkipNegotiation(input)
  {
    if input != [] && input[0] == Received(NegotiateProtocolVersion) {
      var k := SkippedAre(input[1..]);
      n := k + 1;
      assert Negotiations(k + 1) == [input[0]] + Negotiations(k);
    } else {
      n := 0;
    }
  }

  lemma BoundStart(c: Config, v: Verifier, input: seq<Input>, start: seq<Input>, r: BoundRun, rest: seq<Input>)
    requires c.mode == Require && start == SkipNegotiation(input)
    requires start == Messages4(r) + rest && Proves(c, v, r)
    ensures Authenticate(c, v, input).result.Ok? && Authenticate(c, v, input).rest == rest
  {
    var s1, s2, s3 := start[1..], start[2..], start[3..];
    assert s1[1..] == s2 && s2[1..] == s3 && s3[1..] == rest;
    assert start[0] == Received(Sasl(r.mechanisms)) && s1[0] == Received(SaslContinue(r.first));
    assert s2[0] == Received(SaslFinal(r.last)) && s3[0] == Received(AuthenticationOk);
  }

  lemma OkIsBound(c: Config, v: Verifier, input: seq<Input>, start: seq<Input>) returns (r: BoundRun)
    requires c.mode == Require && start == SkipNegotiation(input) && Authenticate(c, v, input).result.Ok?
    ensures start == Messages4(r) + Authenticate(c, v, input).rest && Proves(c, v, r)
  {
    var mechanisms := start[0].message.mechanisms;
    var s1 := start[1..];
    var s2 := s1[1..];
    var s3 := s2[1..];
    r := BoundRun(mechanisms, s1[0].message.data, s2[0].message.data);
    assert Choose(c, mechanisms).Some?;
    assert s3[0] == Received(AuthenticationOk);
    assert start == [start[0], s1[0], s2[0], s3[0]] + s3[1..];
  }

  /**
   With channel binding required, authentication succeeds exactly on the messages of a
   verified SCRAM-SHA-256-PLUS login bound to the TLS channel, and takes exactly those.
   */
  lemma RequireMeansBound(c: Config, v: Verifier, input: seq<Input>)
    requires c.mode == Require
    ensures Authenticate(c, v, input).result.Ok? <==>
              exists n, r, rest :: BoundLogin(c, v, input, n, r, rest)
    ensures forall n, r, rest :: BoundLogin(c, v, input, n, r, rest) ==> Authenticate(c, v, input).rest == rest
  {
    if Authenticate(c, v, input).result.Ok? {
      var n := SkippedAre(input);
      var r := OkIsBound(c, v, input, SkipNegotiation(input));
      assert BoundLogin(c, v, input, n, r, Authenticate(c, v, input).rest);
    }
    forall n, r, rest | BoundLogin(c, v, input, n, r, rest)
      ensures Authenticate(c, v, input).result.Ok? && Authenticate(c, v, input).rest == rest
    {
      SkipsNegotiations(n, Messages4(r) + rest);
      BoundStart(c, v, input, Messages4(r) + rest, r, rest);
    }
  }

  /**
   With channel binding required, no password and no unbound exchange is ever sent, whatever
   the server says and even when the login fails.
   */
  lemma RequireSendsNothingUnbound(c: Config, v: Verifier, input: seq<Input>, i: nat)
    requires c.mode == Require && i < |Authenticate(c, v, input).sent|
    ensures c.endpoint.Some?
    ensures Authenticate(c, v, input).sent[i] ==
            if i == 0 then SaslInitial(SCRAM_PLUS, ServerEndPoint(c.endpoint.value)) else SaslResponse
  {}

  // ---------------------------------------------------------------------------
  // Every login that succeeds
  // ---------------------------------------------------------------------------

  /** How a server may let a client in: at once, after a password, or after SCRAM. */
  datatype Dialogue = Trust | ByPassword(request: Message) | Scram(mechanisms: seq<string>, first: seq<byte>, last: seq<byte>)

  /** What the server says. */
  function Script(d: Dialogue): seq<Input> {
    match d
    case Trust => [Received(AuthenticationOk)]
    case ByPassword(request) => [Received(request), Received(AuthenticationOk)]
    case Scram(mechanisms, first, last) =>
      [Received(Sasl(mechanisms)), Received(SaslContinue(first)), Received(SaslFinal(last)), Received(AuthenticationOk)]
  }

  /** A request that a password answers. */
  predicate Answerable(m: Message) {
    || m.CleartextPassword? || m.Md5Password?
    || (m.Sha256Password? && m.request.stored in {SHA256_PASSWORD, PLAIN_PASSWORD}
        && m.request.hasSalt && m.request.hasToken && m.request.hashes)
    || (m.Sha256Password? && m.request.stored == MD5_PASSWORD && m.request.hasMd5Salt)
    || (m.Md5Sha256Password? && m.hashes) || (m.Sm3Password? && m.hashes)
  }

  /** The client can bind to the channel, and has not been told not to. */
  predicate SupportsBinding(c: Config) { c.endpoint.Some? && c.mode != Disable }

  /**
   The client's first SCRAM message, as section 6 of RFC 5802 has it: bound when both sides
   support it, "unrequested" when only the client does, "unsupported" when the client does
   not; and the mechanism with PLUS exactly when bound.
   */
  predicate IsFirstAnswer(c: Config, mechanisms: seq<string>, binding: Binding, mechanism: string) {
    && (SCRAM_PLUS in mechanisms || SCRAM in mechanisms)
    && (binding.ServerEndPoint? <==> SupportsBinding(c) && SCRAM_PLUS in mechanisms)
    && (binding.Unrequested? <==> SupportsBinding(c) && SCRAM_PLUS !in mechanisms)
    && (binding.Unsupported? <==> !SupportsBinding(c))
    && (binding.ServerEndPoint? ==> c.endpoint == Some(binding.data))
    && mechanism == (if binding.ServerEndPoint? then SCRAM_PLUS else SCRAM)
  }

  /** The client goes along with the dialogue, and sends this. */
  ghost predicate GoesAlong(c: Config, v: Verifier, d: Dialogue, sent: seq<Sent>) {
    match d
    case Trust => c.mode != Require && sent == []
    case ByPassword(request) => c.mode != Require && c.password.Some? && Answerable(request) && sent == [Password]
    case Scram(mechanisms, first, last) =>
      c.password.Some? && exists binding, mechanism ::
        && IsFirstAnswer(c, mechanisms, binding, mechanism)
        && (c.mode == Require ==> binding.ServerEndPoint?)
        && v.update(binding, first) && v.finish(binding, first, last)
        && sent == [SaslInitial(mechanism, binding), SaslResponse]
  }

  lemma FirstAnswerIsChosen(c: Config, mechanisms: seq<string>, binding: Binding, mechanism: string)
    ensures IsFirstAnswer(c, mechanisms, binding, mechanism) <==> Choose(c, mechanisms) == Some((binding, mechanism))
  {}

  lemma TrustSucceeds(c: Config, v: Verifier, input: seq<Input>, start: seq<Input>)
    requires start == SkipNegotiation(input) && start != [] && start[0] == Received(AuthenticationOk)
    ensures Authenticate(c, v, input) == Run(if c.mode != Require then Ok(Unit) else Err(Refused), start[1..], [])
  {}

  lemma PasswordSucceeds(c: Config, v: Verifier, input: seq<Input>, start: seq<Input>, request: Message, rest: seq<Input>)
    requires start == SkipNegotiation(input) && start == Script(ByPassword(request)) + rest
    requires GoesAlong(c, v, ByPassword(request), [Password])
    ensures Authenticate(c, v, input) == Run(Ok(Unit), rest, [Password])
  {
    assert start[1..][0] == Received(AuthenticationOk) && start[1..][1..] == rest;
  }

  lemma ScramSucceeds(c: Config, v: Verifier, input: seq<Input>, start: seq<Input>, d: Dialogue, rest: seq<Input>, sent: seq<Sent>)
    requires d.Scram? && start == SkipNegotiation(input) && start == Script(d) + rest && GoesAlong(c, v, d, sent)
    ensures Authenticate(c, v, input) == Run(Ok(Unit), rest, sent)
  {
    var binding, mechanism :|
      && IsFirstAnswer(c, d.mechanisms, binding, mechanism)
      && (c.mode == Require ==> binding.ServerEndPoint?)
      && v.update(binding, d.first) && v.finish(binding, d.first, d.last)
      && sent == [SaslInitial(mechanism, binding), SaslResponse];
    FirstAnswerIsChosen(c, d.mechanisms, binding, mechanism);
    var s1, s2, s3 := start[1..], start[2..], start[3..];
    assert s1[1..] == s2 && s2[1..] == s3 && s3[1..] == rest;
    assert start[0] == Received(Sasl(d.mechanisms)) && s1[0] == Received(SaslContinue(d.first));
    assert s2[0] == Received(SaslFinal(d.last)) && s3[0] == Received(AuthenticationOk);
  }

  lemma SuccessIsDialogue(c: Config, v: Verifier, input: seq<Input>, start: seq<Input>) returns (d: Dialogue)
    requires start == SkipNegotiation(input) && Authenticate(c, v, input).result.Ok?
    ensures start == Script(d) + Authenticate(c, v, input).rest && GoesAlong(c, v, d, Authenticate(c, v, input).sent)
  {
    var first := start[0].message;
    assert start == [start[0]] + start[1..];
    if first.AuthenticationOk? {
      d := Trust;
    } else if first.Sasl? {
      d := ScramDialogue(c, v, input, start);
    } else {
      d := ByPassword(first);
      assert start[1..] == [start[1]] + start[1..][1..];
    }
  }

  lemma ScramDialogue(c: Config, v: Verifier, input: seq<Input>, start: seq<Input>) returns (d: Dialogue)
    requires start == SkipNegotiation(input) && Authenticate(c, v, input).result.Ok?
    requires start != [] && start[0].Received? && start[0].message.Sasl?
    ensures start == Script(d) + Authenticate(c, v, input).rest && GoesAlong(c, v, d, Authenticate(c, v, input).sent)
  {
    var mechanisms := start[0].message.mechanisms;
    var s1 := start[1..];
    var s2 := s1[1..];
    var s3 := s2[1..];
    d := Scram(mechanisms, s1[0].message.data, s2[0].message.data);
    var (binding, mechanism) := Choose(c, mechanisms).value;
    FirstAnswerIsChosen(c, mechanisms, binding, mechanism);
    assert s3[0] == Received(AuthenticationOk);
    assert start == [start[0], s1[0], s2[0], s3[0]] + s3[1..];
  }

  ghost predicate LogsIn(c: Config, v: Verifier, input: seq<Input>, n: nat, d: Dialogue, rest: seq<Input>, sent: seq<Sent>) {
    input == Negotiations(n) + (Script(d) + rest) && GoesAlong(c, v, d, sent)
  }

  lemma DialogueSucceeds(c: Config, v: Verifier, input: seq<Input>, n: nat, d: Dialogue, rest: seq<Input>, sent: seq<Sent>)
    requires LogsIn(c, v, input, n, d, rest, sent)
    ensures Authenticate(c, v, input) == Run(Ok(Unit), rest, sent)
  {
    var start := Script(d) + rest;
    SkipsNegotiations(n, start);
    match d
    case Trust =>
      TrustSucceeds(c, v, input, start);
      assert start[1..] == rest;
    case ByPassword(request) => PasswordSucceeds(c, v, input, start, request, rest);
    case Scram(_, _, _) => ScramSucceeds(c, v, input, start, d, rest, sent);
  }

  /**
   In every mode: authentication succeeds exactly on negotiations followed by a dialogue that
   the client goes along with; it takes exactly these messages and sends exactly what belongs
   to the dialogue.
   */
  lemma AuthenticateExactly(c: Config, v: Verifier, input: seq<Input>)
    ensures Authenticate(c, v, input).result.Ok? <==> exists n, d, rest, sent :: LogsIn(c, v, input, n, d, rest, sent)
    ensures forall n, d, rest, sent :: LogsIn(c, v, input, n, d, rest, sent) ==>
              Authenticate(c, v, input) == Run(Ok(Unit), rest, sent)
  {
    if Authenticate(c, v, input).result.Ok? {
      var n := SkippedAre(input);
      var d := SuccessIsDialogue(c, v, input, SkipNegotiation(input));
      assert LogsIn(c, v, input, n, d, Authenticate(c, v, input).rest, Authenticate(c, v, input).sent);
    }
    forall n, d, rest, sent | LogsIn(c, v, input, n, d, rest, sent)
      ensures Authenticate(c, v, input) == Run(Ok(Unit), rest, sent)
    {
      DialogueSucceeds(c, v, input, n, d, rest, sent);
    }
  }

  // why it fails

  /** The last of the inputs taken; none when all were taken and another one was awaited. */
  predicate StoppedAt(input: seq<Input>, rest: seq<Input>, last: Input) {
    |rest| < |input| && input[|input| - |rest| - 1] == last
  }

  lemma StoppedBehindNegotiations(n: nat, start: seq<Input>, rest: seq<Input>, last: Input)
    requires |rest| < |start|
    ensures StoppedAt(Negotiations(n) + start, rest, last) <==> StoppedAt(start, rest, last)
  {}

  /**
   Authentication reports the server's error exactly when it stopped at one, a broken stream
   exactly when it stopped there, and a closed one only when everything has been taken.
   */
  lemma AuthenticationErrors(c: Config, v: Verifier, input: seq<Input>)
    ensures ErrorsFit(input, Authenticate(c, v, input))
  {
    var n := SkippedAre(input);
    var start := SkipNegotiation(input);
    StartErrors(c, v, input, start);
    if start != [] {
      StoppedBehindNegotiations(n, start, Authenticate(c, v, input).rest, Received(ErrorResponse));
      StoppedBehindNegotiations(n, start, Authenticate(c, v, input).rest, StreamError);
    } else {
      AppendEmpty(Negotiations(n));
    }
  }

  /** What the awaited message says when it is not the one wanted. */
  ghost predicate ErrorsFit(input: seq<Input>, r: Run<Unit>) {
    && |r.rest| <= |input|
    && (r.result == Err(DatabaseError) <==> StoppedAt(input, r.rest, Received(ErrorResponse)))
    && (r.result == Err(IoError) <==> StoppedAt(input, r.rest, StreamError))
    && (r.result == Err(ClosedByServer) ==> r.rest == [])
  }

  lemma ErrorsFitBehind(start: seq<Input>, input: seq<Input>, r: Run<Unit>)
    requires start != [] && input == start[1..] && ErrorsFit(input, r) && |r.rest| < |start|
    requires start[0] != StreamError && start[0] != Received(ErrorResponse)
    ensures ErrorsFit(start, r)
  {
    if |r.rest| < |input| {
      assert start[|start| - |r.rest| - 1] == input[|input| - |r.rest| - 1];
    }
  }

  lemma AwaitErrors(input: seq<Input>, sent: seq<Sent>)
    ensures ErrorsFit(input, AwaitOk(input, sent))
  {}

  /** The messages of a SASL exchange, one behind the other. */
  lemma SaslErrors(c: Config, v: Verifier, mechanisms: seq<string>, input: seq<Input>)
    ensures var r := AuthenticateSasl(c, v, mechanisms, input); r.result.Err? ==> ErrorsFit(input, r)
    ensures var r := AuthenticateSasl(c, v, mechanisms, input);
            r.result.Ok? ==>
              && |input| >= 2 && r.rest == input[1..][1..]
              && input[0].Received? && input[0].message.SaslContinue? && input[1].Received? && input[1].message.SaslFinal?
  {
    if input != [] {
      assert |input| > 1 ==> input[1..][0] == input[1];
    }
  }

  lemma AfterSaslErrors(c: Config, v: Verifier, mechanisms: seq<string>, input: seq<Input>)
    ensures var r := AuthenticateSasl(c, v, mechanisms, input);
            ErrorsFit(input, if r.result.Err? then r else AwaitOk(r.rest, r.sent))
  {
    var r := AuthenticateSasl(c, v, mechanisms, input);
    SaslErrors(c, v, mechanisms, input);
    if r.result.Ok? {
      var end := AwaitOk(r.rest, r.sent);
      AwaitErrors(r.rest, r.sent);
      ErrorsFitBehind(input[1..], r.rest, end);
      ErrorsFitBehind(input, input[1..], end);
    }
  }

  lemma StartErrors(c: Config, v: Verifier, input: seq<Input>, start: seq<Input>)
    requires start == SkipNegotiation(input)
    ensures ErrorsFit(start, Authenticate(c, v, input))
    ensures start != [] ==> |Authenticate(c, v, input).rest| < |start|
  {
    if start != [] && start[0].Received? {
      var m, rest := start[0].message, start[1..];
      if m.Sasl? {
        AfterSaslErrors(c, v, m.mechanisms, rest);
        ErrorsFitBehind(start, rest, Authenticate(c, v, input));
      } else if AsksForPassword(m) && AnswerPassword(c, m).Ok? {
        AwaitErrors(rest, [AnswerPassword(c, m).value]);
        ErrorsFitBehind(start, rest, Authenticate(c, v, input));
      }
    }
  }

  /** The first message that is no negotiation. */
  function FirstMessage(input: seq<Input>): Option<Message> {
    var start := SkipNegotiation(input);
    if start == [] || start[0].StreamError? then None else Some(start[0].message)
  }

  /**
   A missing password is reported exactly when one is asked for and may be given, or SCRAM is
   offered; and an unexpected message only where a message was taken that is no error.
   */
  lemma OtherAuthenticationErrors(c: Config, v: Verifier, input: seq<Input>)
    ensures Authenticate(c, v, input).result == Err(PasswordMissing) <==>
              c.password.None? && FirstMessage(input).Some? &&
              (FirstMessage(input).value.Sasl? || (AsksForPassword(FirstMessage(input).value) && c.mode != Require))
    ensures FirstMessage(input).Some? && AsksForPassword(FirstMessage(input).value) && c.mode == Require ==>
              Authenticate(c, v, input).result == Err(Refused)
  {}

  // ---------------------------------------------------------------------------
  // The server's settings
  // ---------------------------------------------------------------------------

  /** What is collected up to ReadyForQuery; `delayed` keeps notices for the connection. */
  datatype Info = Info(process: int, secret: int, parameters: map<string, string>, delayed: seq<Message>)

  const NO_INFO := Info(0, 0, map[], [])

  predicate IsInfo(m: Message) {
    m.BackendKeyData? || m.ParameterStatus? || m.NoticeResponse? || m.NegotiateProtocolVersion?
  }

  function Record(info: Info, m: Message): Info
    requires IsInfo(m)
  {
    match m
    case BackendKeyData(process, secret) => info.(process := process, secret := secret)
    case ParameterStatus(name, value) => info.(parameters := info.parameters[name := value])
    case NoticeResponse(_) => info.(delayed := info.delayed + [m])
    case NegotiateProtocolVersion => info
  }

  function ReadInfo(info: Info, input: seq<Input>): (Result<Info, LoginError>, seq<Input>)
    decreases |input|
  {
    var m, rest := NextMessage(input), AfterNext(input);
    if m.Err? then (Err(m.error), rest)
    else if IsInfo(m.value) then ReadInfo(Record(info, m.value), rest)
    else (if m.value.ReadyForQuery? then Ok(info) else Err(NotAwaited(m)), rest)
  }

  /** The value the last of the messages gives the parameter. */
  function LastValue(ms: seq<Message>, name: string): Option<string> {
    if ms == [] then None
    else if Last(ms).ParameterStatus? && Last(ms).name == name then Some(Last(ms).value)
    else LastValue(Front(ms), name)
  }

  function LastKey(ms: seq<Message>): (int, int) {
    if ms == [] then (0, 0)
    else if Last(ms).BackendKeyData? then (Last(ms).process, Last(ms).secret)
    else LastKey(Front(ms))
  }

  function Notices(ms: seq<Message>): seq<Message> {
    if ms == [] then [] else Notices(Front(ms)) + (if Last(ms).NoticeResponse? then [Last(ms)] else [])
  }

  ghost predicate AllInfo(ms: seq<Message>) { forall i :: 0 <= i < |ms| ==> IsInfo(ms[i]) }

  /** `info` is what the messages say. */
  ghost predicate Reflects(info: Info, ms: seq<Message>) {
    && (info.process, info.secret) == LastKey(ms)
    && info.delayed == Notices(ms)
    && forall name :: LastValue(ms, name) == if name in info.parameters then Some(info.parameters[name]) else None
  }

  /** Recording the messages one after the other. */
  function Collect(ms: seq<Message>): Info {
    if ms == [] then NO_INFO else if IsInfo(Last(ms)) then Record(Collect(Front(ms)), Last(ms)) else Collect(Front(ms))
  }

  lemma {:induction false} CollectReflects(ms: seq<Message>)
    requires AllInfo(ms)
    ensures Reflects(Collect(ms), ms)
  {
    if ms != [] {
      CollectReflects(Front(ms));
      AppendEmpty(Notices(Front(ms)));
    }
  }

  function Inputs(ms: seq<Message>): (input: seq<Input>)
    ensures |input| == |ms| && forall i :: 0 <= i < |ms| ==> input[i] == Received(ms[i])
  {
    seq(|ms|, i requires 0 <= i < |ms| => Received(ms[i]))
  }

  /** The messages read before the end of the phase. */
  lemma {:induction false} ReadInfoFrom(info: Info, seen: seq<Message>, input: seq<Input>) returns (ms: seq<Message>)
    requires info == Collect(seen) && ReadInfo(info, input).0.Ok?
    ensures AllInfo(ms) && ReadInfo(info, input).0.value == Collect(seen + ms)
    ensures input == Inputs(ms) + ([Received(ReadyForQuery)] + ReadInfo(info, input).1)
    decreases |input|
  {
    var m, rest := input[0].message, input[1..];
    if IsInfo(m) {
      assert Front(seen + [m]) == seen;
      var more := ReadInfoFrom(Record(info, m), seen + [m], rest);
      ms := [m] + more;
      AppendAssoc(seen, [m], more);
      InputsCons(input, m, rest, more, [Received(ReadyForQuery)] + ReadInfo(info, input).1);
    } else {
      ms := [];
      AppendEmpty(seen);
      assert input == [Received(ReadyForQuery)] + rest;
    }
  }

  lemma InputsCons(input: seq<Input>, m: Message, rest: seq<Input>, more: seq<Message>, tail: seq<Input>)
    requires input == [Received(m)] + rest && rest == Inputs(more) + tail
    ensures input == Inputs([m] + more) + tail
  {
    assert Inputs([m] + more) == [Received(m)] + Inputs(more);
  }

  lemma {:induction false} InfoIsRead(info: Info, ms: seq<Message>, rest: seq<Input>)
    requires AllInfo(ms)
    ensures var r := ReadInfo(info, Inputs(ms) + ([Received(ReadyForQuery)] + rest)); r.0.Ok? && r.1 == rest
    decreases |ms|
  {
    var input := Inputs(ms) + ([Received(ReadyForQuery)] + rest);
    if ms == [] {
      assert input == [Received(ReadyForQuery)] + rest;
    } else {
      assert input[0] == Received(ms[0]);
      assert Inputs(ms)[1..] == Inputs(ms[1..]);
      assert input[1..] == Inputs(ms[1..]) + ([Received(ReadyForQuery)] + rest);
      InfoIsRead(Record(info, ms[0]), ms[1..], rest);
    }
  }

  ghost predicate InfoPhase(input: seq<Input>, ms: seq<Message>, rest: seq<Input>) {
    AllInfo(ms) && input == Inputs(ms) + ([Received(ReadyForQuery)] + rest)
  }

  /**
   The phase succeeds exactly when only settings, keys and notices come before
   ReadyForQuery, and takes exactly those: the last value of each parameter and the last
   key count, and the notices are kept in the order they came in.
   */
  lemma ReadInfoExactly(input: seq<Input>)
    ensures ReadInfo(NO_INFO, input).0.Ok? <==> exists ms, rest :: InfoPhase(input, ms, rest)
    ensures ReadInfo(NO_INFO, input).0.Ok? ==>
              exists ms :: InfoPhase(input, ms, ReadInfo(NO_INFO, input).1) && Reflects(ReadInfo(NO_INFO, input).0.value, ms)
  {
    if ReadInfo(NO_INFO, input).0.Ok? {
      var ms := ReadInfoFrom(NO_INFO, [], input);
      assert [] + ms == ms;
      CollectReflects(ms);
      assert InfoPhase(input, ms, ReadInfo(NO_INFO, input).1);
    }
    if exists ms, rest :: InfoPhase(input, ms, rest) {
      var ms, rest :| InfoPhase(input, ms, rest);
      InfoIsRead(NO_INFO, ms, rest);
    }
  }

  /** The settings phase reports the server's error exactly when it stopped at one, and a broken stream likewise. */
  lemma {:induction false} ReadInfoErrors(info: Info, input: seq<Input>)
    ensures var (r, rest) := ReadInfo(info, input);
            && |rest| <= |input|
            && (r == Err(DatabaseError) <==> StoppedAt(input, rest, Received(ErrorResponse)))
            && (r == Err(IoError) <==> StoppedAt(input, rest, StreamError))
            && (r == Err(ClosedByServer) ==> rest == [])
    decreases |input|
  {
    if input != [] && input[0].Received? && IsInfo(input[0].message) {
      var more := input[1..];
      ReadInfoErrors(Record(info, input[0].message), more);
      var rest := ReadInfo(Record(info, input[0].message), more).1;
      if |rest| < |more| {
        assert input[|input| - |rest| - 1] == more[|more| - |rest| - 1];
      }
    }
  }

  // ---------------------------------------------------------------------------
  // Handing the stream over
  // ---------------------------------------------------------------------------

  /** During login a batch is unpacked message by message; `taken` are those handed out. */
  datatype Startup = Startup(inner: Stream, buf: seq<byte>, arrived: seq<byte>, taken: seq<Frame>)

  datatype StartupStep = Arrival(chunk: seq<byte>) | TryNext

  function StartupNext(s: Startup, step: StartupStep): Startup {
    match step
    case Arrival(chunk) => s.(inner := StreamStep(s.inner, Arrive(chunk)), arrived := s.arrived + chunk)
    case TryNext =>
      var n := FrameSize(s.buf);
      if n > 0 then s.(buf := s.buf[n..], taken := s.taken + [s.buf[..n]])
      else
        match Decode(s.inner.buf)
        case Got(item, _) =>
          var inner := StreamStep(s.inner, Poll);
          if s.inner.failed then s
          else if item.Async? then s.(inner := inner, taken := s.taken + [item.message])
          else s.(inner := inner, buf := item.messages)
        case _ => s.(inner := StreamStep(s.inner, Poll))
  }

  function StartupRun(steps: seq<StartupStep>): Startup {
    if steps == [] then Startup(Stream([], [], false), [], [], []) else StartupNext(StartupRun(Front(steps)), Last(steps))
  }

  /** What remains of a batch: whole messages, of which only the last may be ReadyForQuery. */
  ghost predicate BatchTail(buf: seq<byte>) {
    buf == Concat(Parse(buf).frames) && ReadyOnlyLast(Parse(buf).frames)
  }

  ghost predicate ReadyOnlyLast(fs: seq<Frame>) { forall i :: 0 <= i < |fs| - 1 ==> !IsReady(fs[i]) }

  /** What was taken, what is left of the batch, and what is still in the stream, are all that arrived. */
  ghost predicate StartupKept(s: Startup) {
    && Parse(s.arrived) == Prepend(s.taken + Parse(s.buf).frames, Parse(s.inner.buf))
    && BatchTail(s.buf)
  }

  lemma BatchIsTail(item: Item)
    requires GoodItem(item) && item.Normal?
    ensures BatchTail(item.messages)
  {
    var fs := Messages(item);
    forall i | 0 <= i < |fs| - 1 ensures !IsReady(fs[i]) {
      assert fs[..|fs| - 1][i] == fs[i];
    }
  }

  lemma PopKeeps(s: Startup)
    requires StartupKept(s) && FrameSize(s.buf) > 0
    ensures StartupKept(StartupNext(s, TryNext))
    ensures IsReady(s.buf[..FrameSize(s.buf)]) ==> StartupNext(s, TryNext).buf == []
  {
    var n := FrameSize(s.buf);
    var f, rest := s.buf[..n], Parse(s.buf[n..]);
    ParseHere(s.buf);
    ParseIsExact(s.buf[n..]);
    ConcatCons(f, rest.frames);
    AppendAssoc(s.taken, [f], rest.frames);
    assert s.buf[n..] == Concat(rest.frames) by {
      assert s.buf == f + s.buf[n..];
    }
    forall i | 0 <= i < |rest.frames| - 1 ensures !IsReady(rest.frames[i]) {
      assert Parse(s.buf).frames[i + 1] == rest.frames[i];
    }
    assert Parse(s.buf).frames[0] == f;
    assert IsReady(f) ==> rest.frames == [];
  }

  lemma EmptyTail(s: Startup)
    requires StartupKept(s) && FrameSize(s.buf) == 0
    ensures Parse(s.arrived) == Prepend(s.taken, Parse(s.inner.buf))
  {
    ParseHere(s.buf);
    AppendEmpty(s.taken);
  }

  /** The next batch is unpacked from now on. */
  lemma BatchFetched(s: Startup, item: Item, rest: seq<byte>, s': Startup)
    requires Parse(s.arrived) == Prepend(s.taken, Prepend(Messages(item), Parse(rest))) && GoodItem(item) && item.Normal?
    requires s'.arrived == s.arrived && s'.inner.buf == rest && s'.buf == item.messages && s'.taken == s.taken
    ensures StartupKept(s')
  {
    PrependTwice(s.taken, Messages(item), Parse(rest));
    BatchIsTail(item);
  }

  lemma SingleMessage(item: Item)
    requires GoodItem(item) && item.Async?
    ensures Messages(item) == [item.message]
  {
    ConcatCons(Messages(item)[0], []);
    AppendEmpty(Messages(item)[0]);
  }

  /** An asynchronous message is taken at once. */
  lemma AsyncFetched(s: Startup, item: Item, rest: seq<byte>, s': Startup)
    requires item.Async? && Parse(s.arrived) == Prepend(s.taken, Prepend([item.message], Parse(rest)))
    requires s'.arrived == s.arrived && s'.inner.buf == rest && s'.taken == s.taken + [item.message]
    requires s'.buf == s.buf && BatchTail(s.buf) && Parse(s.buf).frames == []
    ensures StartupKept(s')
  {
    PrependTwice(s.taken, [item.message], Parse(rest));
    AppendEmpty(s'.taken);
  }

  lemma FetchKeeps(s: Startup)
    requires StartupKept(s) && FrameSize(s.buf) == 0
    ensures StartupKept(StartupNext(s, TryNext))
  {
    EmptyTail(s);
    ParseHere(s.buf);
    AppendEmpty(s.taken);
    DecodeMeaning(s.inner.buf);
    if Decode(s.inner.buf).Got? && !s.inner.failed {
      var item, rest := Decode(s.inner.buf).item, Decode(s.inner.buf).rest;
      if item.Async? {
        SingleMessage(item);
        AsyncFetched(s, item, rest, StartupNext(s, TryNext));
      } else {
        BatchFetched(s, item, rest, StartupNext(s, TryNext));
      }
    }
  }

  lemma StartupStepKeeps(s: Startup, step: StartupStep)
    requires StartupKept(s)
    ensures StartupKept(StartupNext(s, step))
  {
    match step
    case Arrival(chunk) => PrependAppended(s.taken + Parse(s.buf).frames, s.inner.buf, chunk, s.arrived);
    case TryNext =>
      if FrameSize(s.buf) > 0 {
        PopKeeps(s);
      } else {
        FetchKeeps(s);
      }
  }

  lemma {:induction false} StartupIsSound(steps: seq<StartupStep>)
    ensures StartupKept(StartupRun(steps))
  {
    if steps == [] {
      ParseHere([]);
      PrependTwice([], [], Parse([]));
    } else {
      StartupIsSound(Front(steps));
      StartupStepKeeps(StartupRun(Front(steps)), Last(steps));
    }
  }

  /**
   Login takes the messages in the order they arrive, and when it has just taken
   ReadyForQuery its own buffer is empty: what is handed to the connection is everything
   that arrived behind that message, so nothing is lost.
   */
  lemma NothingIsLostAtHandOver(steps: seq<StartupStep>)
    requires steps != []
    ensures var s, s' := StartupRun(Front(steps)), StartupRun(steps);
            && s.taken <= s'.taken
            && (|s'.taken| > |s.taken| && IsReady(Last(s'.taken)) ==>
                  s'.buf == [] && Parse(s'.arrived) == Prepend(s'.taken, Parse(s'.inner.buf)))
  {
    var s, s' := StartupRun(Front(steps)), StartupRun(steps);
    StartupIsSound(Front(steps));
    StartupIsSound(steps);
    if Last(steps).TryNext? {
      if FrameSize(s.buf) > 0 {
        PopKeeps(s);
        if s'.buf == [] {
          EmptyTail(s');
        }
      } else {
        DecodeMeaning(s.inner.buf);
        AsyncIsNotReady(s);
      }
    }
  }

  lemma AsyncIsNotReady(s: Startup)
    requires FrameSize(s.buf) == 0
    ensures var s' := StartupNext(s, TryNext); |s'.taken| > |s.taken| ==> !IsReady(Last(s'.taken))
  {
    DecodeMeaning(s.inner.buf);
    if Decode(s.inner.buf).Got? && Decode(s.inner.buf).item.Async? {
      var m := Decode(s.inner.buf).item.message;
      ConcatCons(Messages(Async(m))[0], []);
      AppendEmpty(Messages(Async(m))[0]);
    }
  }

  // ---------------------------------------------------------------------------
  // The object
  // ---------------------------------------------------------------------------

  class StartupStream {
    var input: seq<Input>
    var sent: seq<Sent>
    var delayed: seq<Message>

    constructor (input: seq<Input>)
      ensures this.input == input && sent == [] && delayed == []
    {
      this.input, sent, delayed := input, [], [];
    }

    method TryNext() returns (m: Result<Message, LoginError>)
      modifies `input
      ensures m == NextMessage(old(input)) && input == AfterNext(old(input))
    {
      if input == [] {
        return Err(ClosedByServer);
      }
      var first := input[0];
      input := input[1..];
      match first
      case Received(message) => return Ok(message);
      case StreamError => return Err(IoError);
    }

    method Send(s: Sent)
      modifies `sent
      ensures sent == old(sent) + [s]
    {
      sent := sent + [s];
    }

    /** The run's effects on this object. */
    ghost predicate Did(r: Result<Unit, LoginError>, run: Run<Unit>, before: seq<Sent>)
      reads this
    {
      r == run.result && input == run.rest && sent == before + run.sent
    }

    method PerformSasl(c: Config, v: Verifier, mechanisms: seq<string>) returns (r: Result<Unit, LoginError>)
      modifies `input, `sent
      ensures Did(r, AuthenticateSasl(c, v, mechanisms, old(input)), old(sent))
    {
      AppendEmpty(sent);
      if c.password.None? {
        return Err(PasswordMissing);
      }
      var hasScram, hasScramPlus := false, false;
      for i := 0 to |mechanisms|
        invariant hasScram <==> SCRAM in mechanisms[..i]
        invariant hasScramPlus <==> SCRAM_PLUS in mechanisms[..i]
      {
        assert mechanisms[..i + 1] == mechanisms[..i] + [mechanisms[i]];
        if mechanisms[i] == SCRAM {
          hasScram := true;
        } else if mechanisms[i] == SCRAM_PLUS {
          hasScramPlus := true;
        }
      }
      assert mechanisms[..|mechanisms|] == mechanisms;
      var endpoint := if c.mode != Disable then c.endpoint else None;
      var binding: Binding, mechanism: string;
      if hasScramPlus {
        if endpoint.Some? {
          binding, mechanism := ServerEndPoint(endpoint.value), SCRAM_PLUS;
        } else {
          binding, mechanism := Unsupported, SCRAM;
        }
      } else if hasScram {
        binding, mechanism := if endpoint.Some? then Unrequested else Unsupported, SCRAM;
      } else {
        return Err(Refused);
      }
      if mechanism != SCRAM_PLUS && !CanSkipBinding(c) {
        return Err(Refused);
      }
      Send(SaslInitial(mechanism, binding));
      var m1 := TryNext();
      if !(m1.Ok? && m1.value.SaslContinue?) {
        return Err(NotAwaited(m1));
      }
      if !v.update(binding, m1.value.data) {
        return Err(Refused);
      }
      Send(SaslResponse);
      AppendAssoc(old(sent), [SaslInitial(mechanism, binding)], [SaslResponse]);
      var m2 := TryNext();
      if !(m2.Ok? && m2.value.SaslFinal?) {
        return Err(NotAwaited(m2));
      }
      if !v.finish(binding, m1.value.data, m2.value.data) {
        return Err(Refused);
      }
      return Ok(Unit);
    }

    /** The first message that is not about the protocol version. */
    method FirstMessage() returns (m: Result<Message, LoginError>)
      modifies `input
      ensures var start := SkipNegotiation(old(input)); m == NextMessage(start) && input == AfterNext(start)
    {
      ghost var start := SkipNegotiation(input);
      m := TryNext();
      while m == Ok(NegotiateProtocolVersion)
        invariant if m == Ok(NegotiateProtocolVersion) then start == SkipNegotiation(input)
                  else m == NextMessage(start) && input == AfterNext(start)
        decreases |input|, m == Ok(NegotiateProtocolVersion)
      {
        m := TryNext();
      }
    }

    method AwaitAuthenticationOk() returns (r: Result<Unit, LoginError>)
      modifies `input
      ensures r == AwaitOk(old(input), []).result && input == AfterNext(old(input))
    {
      var m := TryNext();
      return if m == Ok(AuthenticationOk) then Ok(Unit) else Err(NotAwaited(m));
    }

    method PerformAuthentication(c: Config, v: Verifier) returns (r: Result<Unit, LoginError>)
      modifies `input, `sent
      ensures Did(r, Authenticate(c, v, old(input)), old(sent))
    {
      AppendEmpty(sent);
      var m := FirstMessage();
      if m.Err? {
        return Err(m.error);
      }
      if m.value.AuthenticationOk? {
        return if CanSkipBinding(c) then Ok(Unit) else Err(Refused);
      }
      if AsksForPassword(m.value) {
        var answer := AnswerPassword(c, m.value);
        if answer.Err? {
          return Err(answer.error);
        }
        Send(answer.value);
        r := AwaitAuthenticationOk();
        return;
      }
      if m.value.Sasl? {
        r := PerformSasl(c, v, m.value.mechanisms);
        if r.Ok? {
          r := AwaitAuthenticationOk();
        }
        return;
      }
      return Err(if m.value.UnsupportedAuthentication? then Refused else NotAwaited(m));
    }

    method CollectInfo() returns (r: Result<Info, LoginError>)
      modifies `input, `delayed
      requires delayed == []
      ensures (r, input) == ReadInfo(NO_INFO, old(input))
      ensures r.Ok? ==> delayed == r.value.delayed
    {
      var process, secret := 0, 0;
      var parameters: map<string, string> := map[];
      while true
        invariant ReadInfo(Info(process, secret, parameters, delayed), input) == ReadInfo(NO_INFO, old(input))
        decreases |input|
      {
        var m := TryNext();
        if m.Err? {
          return Err(m.error);
        }
        match m.value
        case BackendKeyData(p, s) => process, secret := p, s;
        case ParameterStatus(name, value) => parameters := parameters[name := value];
        case NoticeResponse(_) => delayed := delayed + [m.value];
        case NegotiateProtocolVersion =>
        case ReadyForQuery => return Ok(Info(process, secret, parameters, delayed));
        case _ => return Err(NotAwaited(m));
      }
    }
  }
}
