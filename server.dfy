/**
 * main.go, server side: the `server` type (SayHello, Logout, and GetUser
 * inherited from the embedded Unimplemented server), the validation
 * interceptor, and the interceptor chain `main` installs: tracing first,
 * validation second, the first one outermost.
 *
 * The tracing interceptor belongs to a library outside the model; it is
 * modelled abstractly as "start a span named after the method, run the rest,
 * finish the span, marking it failed when an error came back".
 */
module GreeterServer {

  import opened Wrappers
  import opened Messages
  import opened Validation
  import opened GreeterGrpc

  // ---------------------------------------------------------------------------
  // The service implementation

  /** `server.SayHello`: the reply message is the name followed by " world". */
  function SayHelloReply(name: string): Msg {
    HelloReplyMsg(name + " world", None, None)
  }

  /**
   * `srv.(GreeterServer).<M>(ctx, req)` on `&server{}`. Requests reach it with
   * the method's input type (the handler decodes or asserts that type first);
   * for any other value SayHello reads the zero name, as the getter would.
   */
  function Serve(m: Method, req: Msg): Outcome {
    var called := [MethodCalled(m, req)];
    match m
    case SayHello =>
      var name := if req.HelloRequestMsg? then req.name else "";
      Outcome(Success(SayHelloReply(name)), called)
    case Logout => Outcome(Success(EmptyMsg), called)
    case GetUser => Outcome(UnimplementedMethod(GetUser).result, called)
  }

  /** The service as the handlers see it. */
  function GreeterService(): Service {
    (m: Method, req: Msg) => Serve(m, req)
  }

  /** `SayHello` answers `name + " world"` with no `Data` and no `Obj`, and never fails. */
  lemma SayHelloAnswers(name: string)
    ensures Serve(SayHello, HelloRequestMsg(name)).result == Success(HelloReplyMsg(name + " world", None, None))
    ensures var reply := Serve(SayHello, HelloRequestMsg(name)).result.value;
      KindOf(reply) == OutputKind(SayHello) && reply.message[..|name|] == name && reply.message[|name|..] == " world"
  {
  }

  /** `Logout` answers an empty message, whatever it is given. */
  lemma LogoutAnswersEmpty(req: Msg)
    ensures Serve(Logout, req).result == Success(Zero(OutputKind(Logout)))
  {
  }

  /** `GetUser` is not defined on `server`: the embedded stub's Unimplemented error comes back. */
  lemma GetUserIsUnimplemented(req: Msg)
    ensures Serve(GetUser, req).result == Failure(StatusError(Unimplemented, "method GetUser not implemented"))
  {
  }

  /** Every method's reply, when there is one, has the method's output type. */
  lemma RepliesHaveOutputType(m: Method, req: Msg)
    ensures Serve(m, req).result.Success? ==> KindOf(Serve(m, req).result.value) == OutputKind(m)
    ensures Serve(m, req).events == [MethodCalled(m, req)]
  {
  }

  // ---------------------------------------------------------------------------
  // The validation interceptor

  /**
   * `ServerValidationUnaryInterceptor`: a request implementing `Validator`
   * whose `ValidateAll` fails is answered with that same error; everything
   * else is handed to the handler unchanged.
   */
  function ValidationInterceptor(req: Msg, info: ServerInfo, handler: UnaryHandler): Outcome {
    if IsValidator(req) then
      match ValidateAll(req)
      case Some(err) => Outcome(Failure(ValidationFailed(err)), [])
      case None => handler(req)
    else handler(req)
  }

  /** A request that fails validation gets its own error back, and the handler never runs. */
  lemma ValidationShortCircuits(req: Msg, info: ServerInfo, handler: UnaryHandler, handler': UnaryHandler)
    requires IsValidator(req) && ValidateAll(req).Some?
    ensures ValidationInterceptor(req, info, handler) == Outcome(Failure(ValidationFailed(ValidateAll(req).value)), [])
    ensures ValidationInterceptor(req, info, handler) == ValidationInterceptor(req, info, handler')
  {
  }

  /** A request that is not a `Validator`, or that passes, gets exactly what the handler returns. */
  lemma ValidationPassesThrough(req: Msg, info: ServerInfo, handler: UnaryHandler)
    requires !IsValidator(req) || ValidateAll(req).None?
    ensures ValidationInterceptor(req, info, handler) == handler(req)
  {
  }

  /** For a `HelloRequest`, the interceptor calls on iff the name is valid. */
  lemma HelloRequestReachesHandler(name: string, info: ServerInfo, handler: UnaryHandler)
    ensures ValidName(name) ==> ValidationInterceptor(HelloRequestMsg(name), info, handler) == handler(HelloRequestMsg(name))
    ensures !ValidName(name) ==> ValidationInterceptor(HelloRequestMsg(name), info, handler).result.Failure? &&
                                  ValidationInterceptor(HelloRequestMsg(name), info, handler).events == []
  {
    HelloRequestValid(name);
  }

  // ---------------------------------------------------------------------------
  // The chain

  datatype Stage = Tracing | Validation

  /** The tracing interceptor, abstractly: one span around the rest of the call. */
  function TracingInterceptor(req: Msg, info: ServerInfo, handler: UnaryHandler): Outcome {
    var inner := handler(req);
    Outcome(inner.result,
            [SpanStarted(info.fullMethod)] + inner.events + [SpanFinished(info.fullMethod, inner.result.Failure?)])
  }

  function RunStage(s: Stage, req: Msg, info: ServerInfo, handler: UnaryHandler): Outcome {
    match s
    case Tracing => TracingInterceptor(req, info, handler)
    case Validation => ValidationInterceptor(req, info, handler)
  }

  /**
   * `grpc.ChainUnaryInterceptor(stages...)`: the first stage runs first and is
   * handed a handler that runs the remaining stages, then the final handler.
   */
  function Chain(stages: seq<Stage>, req: Msg, info: ServerInfo, handler: UnaryHandler): Outcome
    decreases |stages|
  {
    if |stages| == 0 then handler(req)
    else RunStage(stages[0], req, info, (r: Msg) => Chain(stages[1..], r, info, handler))
  }

  /** The order `main` registers the interceptors in. */
  const ServerStages: seq<Stage> := [Tracing, Validation]

  /** The server's single, chained interceptor. */
  function ServerInterceptor(): Interceptor {
    (req: Msg, info: ServerInfo, handler: UnaryHandler) => Chain(ServerStages, req, info, handler)
  }

  /** Both stages look at their handler only through its answer to the request they were given. */
  lemma StageUsesHandlerOnRequest(s: Stage, req: Msg, info: ServerInfo, h1: UnaryHandler, h2: UnaryHandler)
    requires h1(req) == h2(req)
    ensures RunStage(s, req, info, h1) == RunStage(s, req, info, h2)
  {
  }

  /** Chaining a single stage is the same as installing that stage alone. */
  lemma ChainOfOne(s: Stage, req: Msg, info: ServerInfo, handler: UnaryHandler)
    ensures Chain([s], req, info, handler) == RunStage(s, req, info, handler)
  {
    var inner := (r: Msg) => Chain([s][1..], r, info, handler);
    assert [s][1..] == [];
    StageUsesHandlerOnRequest(s, req, info, inner, handler);
  }

  /** A call of method `m` on the server `main` builds. */
  function ServerCall(m: Method, req: Msg): Outcome {
    MethodHandler(m, GreeterService(), SentAs(req), Some(ServerInterceptor()))
  }

  /**
   * A whole call through the server: the request is decoded as sent, traced,
   * validated, and served. The span always opens first and closes last; the
   * method runs iff the request passes validation, and the call fails iff
   * validation or the method fails.
   */
  lemma ServerCallTrace(m: Method, req: Msg)
    requires KindOf(req) == InputKind(m)
    ensures IsValidator(req) && ValidateAll(req).Some? ==>
      ServerCall(m, req) == Outcome(Failure(ValidationFailed(ValidateAll(req).value)),
                                    [SpanStarted(FullMethodName(m)), SpanFinished(FullMethodName(m), true)])
    ensures !(IsValidator(req) && ValidateAll(req).Some?) ==>
      ServerCall(m, req) == Outcome(Serve(m, req).result,
                                    [SpanStarted(FullMethodName(m)), MethodCalled(m, req),
                                     SpanFinished(FullMethodName(m), Serve(m, req).result.Failure?)])
  {
    var info := ServerInfo(FullMethodName(m));
    var h := Forward(GreeterService(), m);
    var validated := (r: Msg) => Chain(ServerStages[1..], r, info, h);
    assert ServerStages[1..] == [Validation];
    ChainOfOne(Validation, req, info, h);
    assert validated(req) == ValidationInterceptor(req, info, h);
    assert ServerCall(m, req) == TracingInterceptor(req, info, validated);
  }

  lemma HelloWorldReply()
    ensures SayHelloReply("hello_world") == HelloReplyMsg("hello_world world", None, None)
  {
    var reply := "hello_world" + " world";
    assert |reply| == 17;
    assert forall k :: 0 <= k < |reply| ==> reply[k] == "hello_world world"[k];
  }

  /** `SayHello("hello_world")` through the server: traced, validated, answered. */
  lemma SayHelloScenario()
    ensures ServerCall(SayHello, HelloRequestMsg("hello_world")) ==
      Outcome(Success(HelloReplyMsg("hello_world world", None, None)),
              [SpanStarted(SayHelloFullMethodName), MethodCalled(SayHello, HelloRequestMsg("hello_world")),
               SpanFinished(SayHelloFullMethodName, false)])
  {
    var req := HelloRequestMsg("hello_world");
    ValidNameExample();
    ServerCallTrace(SayHello, req);
    HelloWorldReply();
    assert Serve(SayHello, req).result == Success(SayHelloReply("hello_world"));
  }

  /** `SayHello("Ada")` through the server: the span records a failure and `SayHello` never runs. */
  lemma ShortNameScenario()
    ensures ServerCall(SayHello, HelloRequestMsg("Ada")) ==
      Outcome(Failure(ValidationFailed(MultiError(HelloRequestKind, [LengthBetween("Name", 6, 16)]))),
              [SpanStarted(SayHelloFullMethodName), SpanFinished(SayHelloFullMethodName, true)])
  {
    ShortNameExample();
    ServerCallTrace(SayHello, HelloRequestMsg("Ada"));
  }

  /**
   * A client calling `SayHello("Ada")` on that server gets code Unknown with
   * the validation error's text: grpc-go sends the unwrapped `ValidateAll`
   * error, which is not a status, that way.
   */
  lemma ShortNameAtClient(errorText: Error -> string)
    ensures ClientCall(SayHello, HelloRequestMsg("Ada"), Loopback(GreeterService(), Some(ServerInterceptor()), errorText)) ==
      Failure(StatusError(Unknown, errorText(ValidationFailed(MultiError(HelloRequestKind, [LengthBetween("Name", 6, 16)])))))
  {
    ShortNameScenario();
    ClientReachesHandler(SayHello, HelloRequestMsg("Ada"), GreeterService(), Some(ServerInterceptor()), errorText);
  }

  /** `Logout` through the server: `Empty` is not a `Validator`, so it goes straight to the method. */
  lemma LogoutScenario()
    ensures ServerCall(Logout, EmptyMsg) ==
      Outcome(Success(EmptyMsg),
              [SpanStarted(LogoutFullMethodName), MethodCalled(Logout, EmptyMsg), SpanFinished(LogoutFullMethodName, false)])
  {
    ServerCallTrace(Logout, EmptyMsg);
  }

  /** `GetUser` through the server: it runs (a `UserReq` has no rules) and fails Unimplemented. */
  lemma GetUserScenario(id: u64)
    ensures ServerCall(GetUser, UserReqMsg(id)) ==
      Outcome(Failure(StatusError(Unimplemented, "method GetUser not implemented")),
              [SpanStarted(GetUserFullMethodName), MethodCalled(GetUser, UserReqMsg(id)), SpanFinished(GetUserFullMethodName, true)])
  {
    GetUserIsUnimplemented(UserReqMsg(id));
    ServerCallTrace(GetUser, UserReqMsg(id));
  }

  /**
   * The order matters: with validation outermost, a rejected request would
   * leave no span at all, whereas the registered order traces it.
   */
  lemma OrderMatters(info: ServerInfo, handler: UnaryHandler)
    ensures Chain([Validation, Tracing], HelloRequestMsg("Ada"), info, handler).events == []
    ensures Chain(ServerStages, HelloRequestMsg("Ada"), info, handler).events ==
      [SpanStarted(info.fullMethod), SpanFinished(info.fullMethod, true)]
  {
    ShortNameExample();
    var req := HelloRequestMsg("Ada");
    var validated := (r: Msg) => Chain(ServerStages[1..], r, info, handler);
    ChainOfOne(Validation, req, info, handler);
    assert ServerStages[1..] == [Validation];
    assert validated(req) == ValidationInterceptor(req, info, handler);
  }
}
