/**
 * grpc/greeter/helloworld/hello_world_grpc.pb.go: the method names, the
 * service descriptor, the generated unary handlers, the Unimplemented
 * fallbacks and the client stubs of the Greeter service.
 *
 * The request decoder, the interceptor, the service implementation and the
 * client connection's `Invoke` are parameters. Each call's observable effect
 * is an `Outcome`: the result (a message or an error) and the events it
 * caused, in order.
 */
module GreeterGrpc {

  import opened Wrappers
  import opened Messages
  import Validation

  // ---------------------------------------------------------------------------
  // Errors

  /** The gRPC status codes this service produces. */
  datatype Code = Unknown | Unimplemented

  /**
   * A Go `error` as it travels through the handlers: a gRPC status, the
   * error `ValidateAll` returned, an error from a component outside the
   * model (decoder, transport), or a failed type assertion (a Go panic).
   */
  datatype Error =
    | StatusError(code: Code, message: string)
    | ValidationFailed(err: Validation.ValidationError)
    | Opaque(detail: string)
    | TypeAssertionPanic(want: Kind, got: Kind)

  // ---------------------------------------------------------------------------
  // Methods and their names

  datatype Method = SayHello | Logout | GetUser

  const ServiceName: string := "grpc.greeter.helloworld.Greeter"

  const SayHelloFullMethodName: string := "/grpc.greeter.helloworld.Greeter/SayHello"
  const LogoutFullMethodName: string := "/grpc.greeter.helloworld.Greeter/Logout"
  const GetUserFullMethodName: string := "/grpc.greeter.helloworld.Greeter/GetUser"

  /** The `Greeter_*_FullMethodName` constant of a method. */
  function FullMethodName(m: Method): string {
    match m
    case SayHello => SayHelloFullMethodName
    case Logout => LogoutFullMethodName
    case GetUser => GetUserFullMethodName
  }

  function InputKind(m: Method): Kind {
    match m
    case SayHello => HelloRequestKind
    case Logout => EmptyKind
    case GetUser => UserReqKind
  }

  function OutputKind(m: Method): Kind {
    match m
    case SayHello => HelloReplyKind
    case Logout => EmptyKind
    case GetUser => UserResKind
  }

  // ---------------------------------------------------------------------------
  // The service descriptor

  datatype MethodDesc = MethodDesc(methodName: string, handler: Method)

  datatype ServiceDesc = ServiceDesc(
    serviceName: string,
    methods: seq<MethodDesc>,
    streams: seq<string>,
    metadata: string)

  /** `Greeter_ServiceDesc`. */
  const GreeterServiceDesc: ServiceDesc := ServiceDesc(
    ServiceName,
    [MethodDesc("SayHello", SayHello), MethodDesc("Logout", Logout), MethodDesc("GetUser", GetUser)],
    [],
    "helloworld/hello_world.proto")

  /** The name under which a server routes a descriptor entry: `/service/method`. */
  function RouteName(desc: ServiceDesc, md: MethodDesc): string {
    "/" + desc.serviceName + "/" + md.methodName
  }

  /** The method a server registered with `desc` runs for a full method name. */
  function LookupMethod(desc: ServiceDesc, fullMethod: string): (r: Option<Method>)
    ensures r.Some? ==> exists i :: 0 <= i < |desc.methods| && desc.methods[i].handler == r.value &&
                                    RouteName(desc, desc.methods[i]) == fullMethod
    ensures r.None? ==> forall i :: 0 <= i < |desc.methods| ==> RouteName(desc, desc.methods[i]) != fullMethod
    decreases |desc.methods|
  {
    if |desc.methods| == 0 then None
    else if RouteName(desc, desc.methods[0]) == fullMethod then Some(desc.methods[0].handler)
    else
      var r := LookupMethod(desc.(methods := desc.methods[1..]), fullMethod);
      if r.Some? then
        ghost var i :| 0 <= i < |desc.methods| - 1 && desc.methods[1..][i].handler == r.value &&
                       RouteName(desc, desc.methods[1..][i]) == fullMethod;
        assert desc.methods[i + 1] == desc.methods[1..][i];
        r
      else
        assert forall i :: 1 <= i < |desc.methods| ==> desc.methods[i] == desc.methods[1..][i - 1];
        r
  }

  /** Where a method sits in `Greeter_ServiceDesc.Methods`. */
  function DescIndex(m: Method): nat {
    match m
    case SayHello => 0
    case Logout => 1
    case GetUser => 2
  }

  /** The text every full method name of the service starts with. */
  const ServicePath: string := "/grpc.greeter.helloworld.Greeter/"

  /** The characters of `"/" + ServiceName + "/"` in `[lo, lo + 9)` are those of `ServicePath`. */
  predicate ServicePathCharsFrom(lo: nat) {
    |"/" + ServiceName + "/"| == |ServicePath| == 33 &&
    forall k :: lo <= k < lo + 9 && k < 33 ==> ("/" + ServiceName + "/")[k] == ServicePath[k]
  }

  lemma ServicePathChars0() ensures ServicePathCharsFrom(0) { }
  lemma ServicePathChars9() ensures ServicePathCharsFrom(9) { }
  lemma ServicePathChars18() ensures ServicePathCharsFrom(18) { }
  lemma ServicePathChars27() ensures ServicePathCharsFrom(27) { }

  /** `ServicePath` is `/`, the service name, and `/`. */
  lemma ServicePathParts()
    ensures "/" + ServiceName + "/" == ServicePath
  {
    ServicePathChars0();
    ServicePathChars9();
    ServicePathChars18();
    ServicePathChars27();
  }

  /** A full method name is the service path followed by the method name `name`. */
  lemma FullNameChars(full: string, name: string)
    requires |full| == |ServicePath| + |name|
    requires forall k :: 0 <= k < |ServicePath| ==> full[k] == ServicePath[k]
    requires forall k :: 0 <= k < |name| ==> full[|ServicePath| + k] == name[k]
    ensures full == "/" + ServiceName + "/" + name
  {
    ServicePathParts();
    var s := ServicePath + name;
    forall k | 0 <= k < |s|
      ensures s[k] == full[k]
    {
      if k >= |ServicePath| {
        assert s[k] == name[k - |ServicePath|];
      }
    }
  }

  lemma SayHelloFullMethodNameParts()
    ensures SayHelloFullMethodName == "/" + ServiceName + "/" + "SayHello"
  {
    FullNameChars(SayHelloFullMethodName, "SayHello");
  }

  lemma LogoutFullMethodNameParts()
    ensures LogoutFullMethodName == "/" + ServiceName + "/" + "Logout"
  {
    FullNameChars(LogoutFullMethodName, "Logout");
  }

  lemma GetUserFullMethodNameParts()
    ensures GetUserFullMethodName == "/" + ServiceName + "/" + "GetUser"
  {
    FullNameChars(GetUserFullMethodName, "GetUser");
  }

  /**
   * The descriptor lists every method once, at `DescIndex`, and each
   * `*_FullMethodName` constant is `/` + the descriptor's service name + `/`
   * + that entry's method name.
   */
  lemma FullMethodNamesMatchDescriptor(m: Method)
    ensures DescIndex(m) < |GreeterServiceDesc.methods| && GreeterServiceDesc.methods[DescIndex(m)].handler == m
    ensures FullMethodName(m) == RouteName(GreeterServiceDesc, GreeterServiceDesc.methods[DescIndex(m)])
  {
    match m
    case SayHello => SayHelloFullMethodNameParts();
    case Logout => LogoutFullMethodNameParts();
    case GetUser => GetUserFullMethodNameParts();
  }

  /** The descriptor's method names are distinct, so are its handlers, and it has no streams. */
  lemma ServiceDescDistinct()
    ensures GreeterServiceDesc.streams == []
    ensures |GreeterServiceDesc.methods| == 3
    ensures forall i, j :: 0 <= i < j < |GreeterServiceDesc.methods| ==>
      GreeterServiceDesc.methods[i].methodName != GreeterServiceDesc.methods[j].methodName &&
      GreeterServiceDesc.methods[i].handler != GreeterServiceDesc.methods[j].handler
  {
    var ms := GreeterServiceDesc.methods;
    assert ms[0].methodName[0] == 'S' && ms[1].methodName[0] == 'L' && ms[2].methodName[0] == 'G';
  }

  /** A server registered with `Greeter_ServiceDesc` runs `m` for exactly the full method name of `m`. */
  lemma LookupFullMethodName(fullMethod: string, m: Method)
    ensures LookupMethod(GreeterServiceDesc, fullMethod) == Some(m) <==> fullMethod == FullMethodName(m)
  {
    FullMethodNamesMatchDescriptor(m);
    ServiceDescDistinct();
    var ms := GreeterServiceDesc.methods;
    var r := LookupMethod(GreeterServiceDesc, fullMethod);
    if r == Some(m) {
      var i :| 0 <= i < |ms| && ms[i].handler == m && RouteName(GreeterServiceDesc, ms[i]) == fullMethod;
      assert i == DescIndex(m);
    }
  }

  /** The method signatures agree with the method input and output table of the file descriptor. */
  lemma SignaturesMatchDepIdxs()
    ensures MethodInputTypes() == Some([ProtoName(InputKind(SayHello)), ProtoName(InputKind(Logout)), ProtoName(InputKind(GetUser))])
    ensures MethodOutputTypes() == Some([ProtoName(OutputKind(SayHello)), ProtoName(OutputKind(Logout)), ProtoName(OutputKind(GetUser))])
  {
    var n := |DepIdxs|;
    assert n == 13 && DepIdxs[n - 4] == 2 && DepIdxs[n - 5] == 5;
    assert forall i :: 2 <= i < 8 ==> DepIdxs[i] < |GoTypes|;
    var ins := MethodInputTypes().value;
    assert |ins| == 3 && ins[0] == GoTypes[2] && ins[1] == GoTypes[6] && ins[2] == GoTypes[0];
    var outs := MethodOutputTypes().value;
    assert |outs| == 3 && outs[0] == GoTypes[3] && outs[1] == GoTypes[6] && outs[2] == GoTypes[1];
    assert ProtoName(UserReqKind) == GoTypes[0] && ProtoName(UserResKind) == GoTypes[1];
    assert ProtoName(HelloRequestKind) == GoTypes[2] && ProtoName(HelloReplyKind) == GoTypes[3];
    assert ProtoName(EmptyKind) == GoTypes[6];
    assert ins == [ProtoName(InputKind(SayHello)), ProtoName(InputKind(Logout)), ProtoName(InputKind(GetUser))];
    assert outs == [ProtoName(OutputKind(SayHello)), ProtoName(OutputKind(Logout)), ProtoName(OutputKind(GetUser))];
  }

  // ---------------------------------------------------------------------------
  // Server side

  /** What one call does: its result and the events it caused, in order. */
  datatype Outcome = Outcome(result: Result<Msg, Error>, events: seq<Event>)

  /** The events the model observes: service methods run, and the spans of the tracing interceptor. */
  datatype Event =
    | MethodCalled(m: Method, req: Msg)
    | SpanStarted(operation: string)
    | SpanFinished(operation: string, failed: bool)

  /** `grpc.UnaryServerInfo`: the full method name (the server itself is the `Service` passed along). */
  datatype ServerInfo = ServerInfo(fullMethod: string)

  /** `srv.(GreeterServer).<M>(ctx, in)`. */
  type Service = (Method, Msg) -> Outcome

  /** `grpc.UnaryHandler`. */
  type UnaryHandler = Msg -> Outcome

  /** `grpc.UnaryServerInterceptor`. */
  type Interceptor = (Msg, ServerInfo, UnaryHandler) -> Outcome

  /** `dec(in)`: fills a fresh message of the given type, or fails. */
  type Decoder = Kind -> Result<Msg, Error>

  /** A decoder fills in the message it is given: on success the value has the type asked for. */
  ghost predicate Typed(dec: Decoder) {
    forall k :: dec(k).Success? ==> KindOf(dec(k).value) == k
  }

  /** The `handler` closure: asserts the request's type, then calls the method. */
  function Forward(srv: Service, m: Method): UnaryHandler {
    req => if KindOf(req) == InputKind(m) then srv(m, req)
           else Outcome(Failure(TypeAssertionPanic(InputKind(m), KindOf(req))), [])
  }

  /** `_Greeter_<M>_Handler`. */
  function MethodHandler(m: Method, srv: Service, dec: Decoder, interceptor: Option<Interceptor>): Outcome {
    match dec(InputKind(m))
    case Failure(e) => Outcome(Failure(e), [])
    case Success(input) =>
      match interceptor
      case None => srv(m, input)
      case Some(icpt) => icpt(input, ServerInfo(FullMethodName(m)), Forward(srv, m))
  }

  /** A decode failure is returned as is, and neither the interceptor nor the service runs. */
  lemma DecodeFailureShortCircuits(m: Method, srv: Service, dec: Decoder, interceptor: Option<Interceptor>,
                                   srv': Service, interceptor': Option<Interceptor>)
    requires dec(InputKind(m)).Failure?
    ensures MethodHandler(m, srv, dec, interceptor) == Outcome(Failure(dec(InputKind(m)).error), [])
    ensures MethodHandler(m, srv, dec, interceptor) == MethodHandler(m, srv', dec, interceptor')
  {
  }

  /** Without an interceptor the handler is a direct call of the method on the decoded request. */
  lemma NoInterceptorCallsDirectly(m: Method, srv: Service, dec: Decoder)
    requires dec(InputKind(m)).Success?
    ensures MethodHandler(m, srv, dec, None) == srv(m, dec(InputKind(m)).value)
  {
  }

  /**
   * With an interceptor, the handler is that one interceptor call, given the
   * decoded request, the method's full name, and a handler that forwards every
   * request of the method's input type to the same method.
   */
  lemma InterceptorGetsMethodAndForwarder(m: Method, srv: Service, dec: Decoder, icpt: Interceptor)
    requires dec(InputKind(m)).Success?
    ensures exists h: UnaryHandler ::
      MethodHandler(m, srv, dec, Some(icpt)) == icpt(dec(InputKind(m)).value, ServerInfo(FullMethodName(m)), h) &&
      (forall req :: KindOf(req) == InputKind(m) ==> h(req) == srv(m, req))
  {
    var h := Forward(srv, m);
    assert MethodHandler(m, srv, dec, Some(icpt)) == icpt(dec(InputKind(m)).value, ServerInfo(FullMethodName(m)), h);
    assert forall req :: KindOf(req) == InputKind(m) ==> h(req) == srv(m, req);
  }

  /** The interceptor that only calls the handler. */
  function PassThrough(): Interceptor {
    (req: Msg, info: ServerInfo, h: UnaryHandler) => h(req)
  }

  /** An interceptor that just calls on is indistinguishable from having none. */
  lemma PassThroughIsNoInterceptor(m: Method, srv: Service, dec: Decoder)
    requires Typed(dec)
    ensures MethodHandler(m, srv, dec, Some(PassThrough())) == MethodHandler(m, srv, dec, None)
  {
  }

  /** `UnimplementedGreeterServer.<M>`: no result and an `Unimplemented` status. */
  function UnimplementedMethod(m: Method): Outcome {
    var message := match m
      case SayHello => "method SayHello not implemented"
      case Logout => "method Logout not implemented"
      case GetUser => "method GetUser not implemented";
    Outcome(Failure(StatusError(Unimplemented, message)), [])
  }

  /** Two strings are equal when they agree at every index. */
  lemma SameChars(a: string, b: string)
    requires |a| == |b| && forall k :: 0 <= k < |a| ==> a[k] == b[k]
    ensures a == b
  {
  }

  /** "method <name> not implemented". */
  function NotImplementedMessage(name: string): string {
    "method " + name + " not implemented"
  }

  lemma SayHelloNotImplemented()
    ensures NotImplementedMessage("SayHello") == "method SayHello not implemented"
  {
    var s := NotImplementedMessage("SayHello");
    assert |s| == 31;
    assert forall k :: 0 <= k < |s| ==> s[k] == "method SayHello not implemented"[k];
  }

  lemma LogoutNotImplemented()
    ensures NotImplementedMessage("Logout") == "method Logout not implemented"
  {
    var s := NotImplementedMessage("Logout");
    assert |s| == 29;
    assert forall k :: 0 <= k < |s| ==> s[k] == "method Logout not implemented"[k];
  }

  lemma GetUserNotImplemented()
    ensures NotImplementedMessage("GetUser") == "method GetUser not implemented"
  {
    var s := NotImplementedMessage("GetUser");
    assert |s| == 30;
    assert forall k :: 0 <= k < |s| ==> s[k] == "method GetUser not implemented"[k];
  }

  /** The Unimplemented message is "method <Name> not implemented", with the name the service descriptor gives. */
  lemma UnimplementedNamesMethod(m: Method)
    ensures UnimplementedMethod(m) ==
      Outcome(Failure(StatusError(Unimplemented, NotImplementedMessage(GreeterServiceDesc.methods[DescIndex(m)].methodName))), [])
  {
    FullMethodNamesMatchDescriptor(m);
    match m
    case SayHello => SayHelloNotImplemented();
    case Logout => LogoutNotImplemented();
    case GetUser => GetUserNotImplemented();
  }

  // ---------------------------------------------------------------------------
  // Client side

  /**
   * `cc.Invoke(ctx, method, in, out)`: given the full method name, the request
   * and the fresh reply message, returns the reply as Invoke left it (possibly
   * partly filled) and the error, if any.
   */
  type Invoker = (string, Msg, Msg) -> (Msg, Option<Error>)

  /** `greeterClient.<M>`. */
  function ClientCall(m: Method, input: Msg, invoke: Invoker): Result<Msg, Error> {
    var (out, err) := invoke(FullMethodName(m), input, Zero(OutputKind(m)));
    match err
    case Some(e) => Failure(e)
    case None => Success(out)
  }

  /**
   * A client stub sends its method's full name and a fresh reply message; it
   * returns Invoke's error alone when there is one, and otherwise the reply
   * Invoke filled in.
   */
  lemma ClientCallContract(m: Method, input: Msg, invoke: Invoker)
    ensures var (out, err) := invoke(FullMethodName(m), input, Zero(OutputKind(m)));
      (err.Some? ==> ClientCall(m, input, invoke) == Failure(err.value)) &&
      (err.None? ==> ClientCall(m, input, invoke) == Success(out))
  {
  }

  /** The decoder for a request sent as is: it yields that request when asked for its type. */
  function SentAs(req: Msg): Decoder {
    k => if k == KindOf(req) then Success(req) else Failure(Opaque("wrong message type"))
  }

  /**
   * The error a grpc-go server sends for a handler's error: a status as it is,
   * any other error as code Unknown with the error's text (`err.Error()`,
   * given as `errorText`).
   */
  function AsStatus(e: Error, errorText: Error -> string): (r: Error)
    ensures r.StatusError?
    ensures e.StatusError? ==> r == e
    ensures !e.StatusError? ==> r.code == Unknown && r.message == errorText(e)
  {
    if e.StatusError? then e else StatusError(Unknown, errorText(e))
  }

  /**
   * A connection that hands the request to a server registered with
   * `Greeter_ServiceDesc`: it routes by full method name, decodes the request
   * as it was sent, and reports the handler's reply, or its error as the
   * status the server sends.
   */
  function Loopback(srv: Service, interceptor: Option<Interceptor>, errorText: Error -> string): Invoker {
    (fullMethod, input, out) =>
      match LookupMethod(GreeterServiceDesc, fullMethod)
      case None => (out, Some(StatusError(Unimplemented, "unknown method")))
      case Some(m) =>
        var o := MethodHandler(m, srv, SentAs(input), interceptor);
        match o.result
        case Failure(e) => (out, Some(AsStatus(e, errorText)))
        case Success(reply) => (reply, None)
  }

  /**
   * Over a loopback connection, a client stub returns the reply of the
   * server's handler for its method, or the handler's error converted to a
   * status; so every error a client sees is a status.
   */
  lemma ClientReachesHandler(m: Method, input: Msg, srv: Service, interceptor: Option<Interceptor>, errorText: Error -> string)
    requires KindOf(input) == InputKind(m)
    ensures var served := MethodHandler(m, srv, SentAs(input), interceptor).result;
      ClientCall(m, input, Loopback(srv, interceptor, errorText)) ==
        match served
        case Success(reply) => Success(reply)
        case Failure(e) => Failure(AsStatus(e, errorText))
    ensures ClientCall(m, input, Loopback(srv, interceptor, errorText)).Failure? ==>
      ClientCall(m, input, Loopback(srv, interceptor, errorText)).error.StatusError?
  {
    LookupFullMethodName(FullMethodName(m), m);
  }
}
