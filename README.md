# Greeter service model

A Dafny model of the core of `grpc_greeter_helloworld`. This is a small gRPC "Greeter" service. One listener serves native gRPC calls and, through grpc-gateway, HTTP/JSON calls. The model covers these parts:

- **Entry handler** (`main.go`, `grpcHandlerFunc`), in module `Router`.
  - Routing rule: HTTP/2 plus a Content-Type that contains `application/grpc` goes to the gRPC server; everything else goes to the gateway mux.
  - Gateway branch: the tracing around the gateway call.
  - `Router.EntryHandler` is a class that logs every downstream call, span start, header write and span finish. It changes a `GoHttp.ResponseWriter`'s header map in place.
- **Server side of `main.go`** (module `GreeterServer`).
  - `SayHello`, `Logout`, and `GetUser`, which falls back to the embedded Unimplemented server.
  - `ServerValidationUnaryInterceptor`.
  - The interceptor chain: tracing first, validation second, with the first one outermost.
- **Generated gRPC code** (`hello_world_grpc.pb.go`, module `GreeterGrpc`).
  - The full method names and `Greeter_ServiceDesc`.
  - The three-step unary handlers: decode, then call directly or through the interceptor.
  - The Unimplemented stubs and the client stubs.
- **Generated messages** (`hello_world.pb.go`, module `Messages`).
  - Each message is a class. `Reset` overwrites it in place, and the `Get*` getters are nil-safe.
  - The `goTypes`/`depIdxs` method signature table.
- **Raw file descriptor** (module `Descriptor`).
  - The message part of the descriptor is written out byte for byte and decoded with the protobuf wire format (module `ProtoWire`).
  - From it the model proves that `HelloRequest.name` is the only field with options.
- **Validation rule** (module `Validation`).
  - The options of `HelloRequest.name` decode to protoc-gen-validate's string rules: `min_len 6`, `max_len 16`, pattern `^[a-zA-Z0-9_]*$`.
  - `ValidateAll` checks those rules.
- **Swagger helpers** (`pkg/swagger/swagger.go`, module `Swagger`).
  - The served-file path computation: suffix check, one prefix trim, `path.Join`.
  - The `/swagger-ui/` registration on a `ServeMux` class.

Supporting modules model the Go library functions the core relies on:

- `GoStrings`: `strings.HasPrefix`, `HasSuffix`, `TrimPrefix` and `Contains`.
- `GoPath`: `path.Clean` and `path.Join`, lexically, as Go's `path` package documents them.
- `GoHttp`: `textproto.CanonicalMIMEHeaderKey`, and `Header.Get`/`Set`.
- `Wrappers`: `Option` and `Result`.

Parts the code leaves to libraries are parameters of the model:

- the tracer's answer to `Extract` and the context of the span it starts;
- the request decoder `dec`;
- the client connection's `Invoke`;
- the service implementation handed to a handler.

Two consequences of the code are worth stating:

- A `SayHello` with name `"Ada"` does not reach `SayHello`. The `min_len 6` rule at `hello_world.pb.go:283-285` rejects it (`GreeterServer.ShortNameScenario`).
- The validation error goes back to grpc-go's server exactly as `ValidateAll` produced it. `main.go:55-59` returns it as it is, with no status code added. The server therefore sends it as any non-status error: code `Unknown`, with the error's text as the message (`GreeterServer.ShortNameAtClient`).

## Model

| member | source | states |
|---|---|---|
| Router.RouteRule | main.go:143 | A request goes to the gRPC server iff it is HTTP/2 and `application/grpc` occurs somewhere in its Content-Type header |
| Router.GrpcOverHttp2Example | main.go:143 | HTTP/2 with Content-Type `application/grpc+proto` is routed to the gRPC server |
| Router.GrpcOverHttp1Example | main.go:143 | HTTP/1.1 with Content-Type `application/grpc` is routed to the gateway |
| Router.NoContentTypeGoesToGateway | main.go:143 | A request with no Content-Type goes to the gateway, whatever its protocol |
| Router.EntryHandler.constructor | main.go:141-142 | A new handler has made no calls |
| Router.EntryHandler.ServeHTTP | main.go:142-169 | The log grows by exactly the calls `Handle` specifies for the request, and the response header becomes `HeaderAfter` of the old one |
| Router.EntryHandler.ServeGateway | main.go:147-168 | The gateway branch, in program order: span start and trace header, gateway call with the span-carrying request, then the deferred finish |
| Router.EntryHandler.StartServerSpan | main.go:154-164 | Starts `ServeHTTP` with the extracted parent and the server and grpc-gateway tags, and writes the trace ID header only for a Jaeger span context |
| Router.ExactlyOneDownstream | main.go:143-169 | Every request causes exactly one downstream call, and that call is the gRPC server iff the request routes there |
| Router.NativeBranchUntraced | main.go:143-146 | On the gRPC branch the tracer's answers change nothing, the only call is the gRPC server, and the header is untouched |
| Router.SpanStartedIff | main.go:150-158 | On the gateway branch a span is started iff `Extract` found a context or reported `ErrSpanContextNotFound` |
| Router.ExtractErrorStillServed | main.go:153-168 | Any other `Extract` error still reaches the gateway, with the request unchanged and no header written |
| Router.StartedSpanLifecycle | main.go:154-168 | A started span has the extracted parent (none if none was found) and the server tags. It rides on the request passed to the gateway and is finished once, last, after the gateway returns |
| Router.TraceHeaderIff | main.go:161-164 | The header changes only when a span was started with a Jaeger context, and then `Uber-Trace-Id` holds that context's trace ID |
| GoHttp.CanonicalKeyIdempotent | main.go:163 | Canonicalising a header key twice is canonicalising it once |
| GoHttp.GetAfterSet | main.go:163 | After `Header.Set`, `Get` of any key with the same canonical form returns the value set |
| GoHttp.SetLeavesOthers | main.go:163 | `Header.Set` leaves the value under every other canonical key unchanged |
| GoHttp.ResponseWriter.SetHeader | main.go:163 | `w.Header().Set` makes the canonical key hold exactly the one value, and changes nothing else |
| GoStrings.Contains | main.go:143 | `strings.Contains` holds iff the substring occurs at some position |
| GreeterServer.SayHelloAnswers | main.go:41-44 | `SayHello` succeeds with `Message` equal to the name followed by `" world"`, no `Data`, no `Obj`, and the `HelloReply` type |
| GreeterServer.LogoutAnswersEmpty | main.go:47-49 | `Logout` succeeds with an empty message, whatever it is given |
| GreeterServer.GetUserIsUnimplemented | main.go:28-30 | `GetUser`, inherited from the embedded stub, fails with Unimplemented, `"method GetUser not implemented"` |
| GreeterServer.RepliesHaveOutputType | main.go:41-49 | Every reply has its method's output type, and the method runs exactly once |
| GreeterServer.ValidationShortCircuits | main.go:54-61 | A `Validator` whose `ValidateAll` fails gets that same error back, unwrapped, and the handler's behaviour does not matter |
| GreeterServer.ValidationPassesThrough | main.go:56-63 | A non-`Validator`, or one that validates, gets exactly what the handler returns |
| GreeterServer.HelloRequestReachesHandler | main.go:54-63 | A `HelloRequest` reaches the handler iff its name is valid; otherwise the call fails with no event |
| GreeterServer.StageUsesHandlerOnRequest | main.go:54-64 | Each interceptor in the chain depends on its handler only through the handler's answer to the request it was given |
| GreeterServer.ChainOfOne | main.go:102-109 | A one-element chain behaves as that interceptor alone |
| GreeterServer.ServerCallTrace | main.go:102-109 | Through the server `main` builds, the span opens first and closes last. The method runs iff validation passes. The call fails iff validation or the method fails |
| GreeterServer.SayHelloScenario | main.go:102-109 | `SayHello("hello_world")` is traced, validated and answered `"hello_world world"` |
| GreeterServer.ShortNameScenario | main.go:54-61 | `SayHello("Ada")` fails with the length violation, the span records the failure, and `SayHello` never runs |
| GreeterServer.ShortNameAtClient | main.go:55-59 | A client calling `SayHello("Ada")` on this server gets code `Unknown` whose message is the text of the length violation |
| GreeterServer.LogoutScenario | main.go:102-109 | `Logout` is not validated (`Empty` has no `ValidateAll`) and answers `Empty` inside a span |
| GreeterServer.GetUserScenario | main.go:102-109 | `GetUser` passes validation, runs and fails Unimplemented inside a span marked failed |
| GreeterServer.OrderMatters | main.go:102-109 | With validation outermost a rejected request would leave no span, whereas the registered order traces it |
| GreeterGrpc.LookupMethod | grpc/greeter/helloworld/hello_world_grpc.pb.go:169-188 | A full method name resolves to a method iff some descriptor entry routes that name to it |
| GreeterGrpc.ServicePathParts | grpc/greeter/helloworld/hello_world_grpc.pb.go:25-27 | The common prefix `/grpc.greeter.helloworld.Greeter/` of the full method names is `"/" + ServiceName + "/"`, with the service descriptor's `ServiceName` (line 170) |
| GreeterGrpc.SayHelloFullMethodNameParts | grpc/greeter/helloworld/hello_world_grpc.pb.go:25 | `/grpc.greeter.helloworld.Greeter/SayHello` is `"/" + ServiceName + "/" + "SayHello"` |
| GreeterGrpc.LogoutFullMethodNameParts | grpc/greeter/helloworld/hello_world_grpc.pb.go:26 | Likewise for `Logout` |
| GreeterGrpc.GetUserFullMethodNameParts | grpc/greeter/helloworld/hello_world_grpc.pb.go:27 | Likewise for `GetUser` |
| GreeterGrpc.FullMethodNamesMatchDescriptor | grpc/greeter/helloworld/hello_world_grpc.pb.go:169-184 | Each method's full-name constant (lines 25-27) is `"/" + ServiceName + "/" + MethodName` of its service descriptor entry |
| GreeterGrpc.ServiceDescDistinct | grpc/greeter/helloworld/hello_world_grpc.pb.go:169-188 | The descriptor lists exactly SayHello, Logout and GetUser, with distinct names and handlers, and no streams |
| GreeterGrpc.LookupFullMethodName | grpc/greeter/helloworld/hello_world_grpc.pb.go:169-184 | Routing by the descriptor finds method `m` iff the name is `m`'s full method name (lines 25-27) |
| GreeterGrpc.SignaturesMatchDepIdxs | grpc/greeter/helloworld/hello_world.pb.go:351-368 | The `depIdxs` method input and output table gives SayHello HelloRequest→HelloReply, Logout Empty→Empty and GetUser UserReq→UserRes |
| GreeterGrpc.DecodeFailureShortCircuits | grpc/greeter/helloworld/hello_world_grpc.pb.go:113-116 | A decode failure comes back as is, and neither the interceptor nor the service is consulted |
| GreeterGrpc.NoInterceptorCallsDirectly | grpc/greeter/helloworld/hello_world_grpc.pb.go:117-119 | Without an interceptor, the handler is a direct call of the method on the decoded request |
| GreeterGrpc.InterceptorGetsMethodAndForwarder | grpc/greeter/helloworld/hello_world_grpc.pb.go:120-127 | With an interceptor, the handler is one interceptor call. It gets the decoded request, the method's full name and a handler that forwards to the same method |
| GreeterGrpc.PassThroughIsNoInterceptor | grpc/greeter/helloworld/hello_world_grpc.pb.go:117-127 | An interceptor that just calls on is indistinguishable from none, for a decoder that yields the type asked for |
| GreeterGrpc.SayHelloNotImplemented | grpc/greeter/helloworld/hello_world_grpc.pb.go:91-93 | The stub's message for SayHello is `"method SayHello not implemented"` |
| GreeterGrpc.LogoutNotImplemented | grpc/greeter/helloworld/hello_world_grpc.pb.go:94-96 | Likewise for Logout |
| GreeterGrpc.GetUserNotImplemented | grpc/greeter/helloworld/hello_world_grpc.pb.go:97-99 | Likewise for GetUser |
| GreeterGrpc.UnimplementedNamesMethod | grpc/greeter/helloworld/hello_world_grpc.pb.go:91-99 | Every Unimplemented stub fails with code Unimplemented and `"method <Name> not implemented"`, with no result and no event |
| GreeterGrpc.ClientCallContract | grpc/greeter/helloworld/hello_world_grpc.pb.go:49-74 | A client stub sends its full method name and a fresh reply. It returns Invoke's error alone when there is one, and otherwise the reply Invoke filled in |
| GreeterGrpc.ClientReachesHandler | grpc/greeter/helloworld/hello_world_grpc.pb.go:49-74 | Over a connection that routes by `Greeter_ServiceDesc`, a client stub returns the reply of the server's handler for its method (lines 112-188). It returns the handler's error after the server's conversion to a status, so every error a client sees is a status |
| GreeterGrpc.AsStatus | main.go:55-59 | The error the server sends is always a status. A status error goes out unchanged; any other error, such as the unwrapped `ValidateAll` error returned here, goes out as code `Unknown` carrying the error's text |
| Messages.Zero | grpc/greeter/helloworld/hello_world.pb.go:37-38 | The zero message of a type, which each `Reset` installs (also lines 87-88, 156-157 and 207-208), has that type |
| Messages.UserReq.constructor | grpc/greeter/helloworld/hello_world.pb.go:29-35 | A new `UserReq` is the zero message |
| Messages.UserReq.Reset | grpc/greeter/helloworld/hello_world.pb.go:37-38 | After `Reset` the message is the zero `UserReq` and `GetId` returns 0 |
| Messages.UserReq.GetId | grpc/greeter/helloworld/hello_world.pb.go:69-74 | On nil, the zero message's `id`, which is 0; otherwise the stored `id` |
| Messages.UserRes.constructor | grpc/greeter/helloworld/hello_world.pb.go:76-85 | A new `UserRes` is the zero message |
| Messages.UserRes.Reset | grpc/greeter/helloworld/hello_world.pb.go:87-88 | After `Reset` the message is the zero `UserRes`, and every getter returns 0 or `""` |
| Messages.UserRes.GetId | grpc/greeter/helloworld/hello_world.pb.go:119-124 | On nil 0, otherwise the stored `id` |
| Messages.UserRes.GetName | grpc/greeter/helloworld/hello_world.pb.go:126-131 | On nil `""`, otherwise the stored `name` |
| Messages.UserRes.GetEmail | grpc/greeter/helloworld/hello_world.pb.go:133-138 | On nil `""`, otherwise the stored `email` |
| Messages.UserRes.GetPhone | grpc/greeter/helloworld/hello_world.pb.go:140-145 | On nil `""`, otherwise the stored `phone` |
| Messages.HelloRequest.constructor | grpc/greeter/helloworld/hello_world.pb.go:148-154 | A new `HelloRequest` is the zero message |
| Messages.HelloRequest.Reset | grpc/greeter/helloworld/hello_world.pb.go:156-157 | After `Reset` the message is the zero `HelloRequest` and `GetName` returns `""` |
| Messages.HelloRequest.GetName | grpc/greeter/helloworld/hello_world.pb.go:188-193 | On nil `""`, otherwise the stored `name` |
| Messages.HelloReply.constructor | grpc/greeter/helloworld/hello_world.pb.go:196-205 | A new `HelloReply` is the zero message |
| Messages.HelloReply.Reset | grpc/greeter/helloworld/hello_world.pb.go:207-208 | After `Reset` the message is the zero `HelloReply`: `""`, no `Data`, no `Obj` |
| Messages.HelloReply.GetMessage | grpc/greeter/helloworld/hello_world.pb.go:239-244 | On nil `""`, otherwise the stored `message` |
| Messages.HelloReply.GetData | grpc/greeter/helloworld/hello_world.pb.go:246-251 | On nil no list, otherwise the stored `data` |
| Messages.HelloReply.GetObj | grpc/greeter/helloworld/hello_world.pb.go:253-258 | On nil no struct, otherwise the stored `obj` |
| Messages.DepIdxsSections | grpc/greeter/helloworld/hello_world.pb.go:360-373 | The five trailing markers `5, 2, 2, 2, 0` cut the eight entries before them into contiguous sections that cover them all: field type names `[0:2]`, extendees `[2:2]`, extension type names `[2:2]`, method inputs `[2:5]`, method outputs `[5:8]`. There are no extensions, and the two field type names are `google.protobuf.ListValue` (`HelloReply.data`) and `google.protobuf.Struct` (`HelloReply.obj`) |
| ProtoWire.VarintRoundTrip | grpc/greeter/helloworld/hello_world.pb.go:262-341 | Decoding an encoded varint gives back the number and consumes exactly its bytes |
| ProtoWire.FieldsRoundTrip | grpc/greeter/helloworld/hello_world.pb.go:262-341 | Decoding an encoded field list gives back the same fields |
| ProtoWire.Lookup | grpc/greeter/helloworld/hello_world.pb.go:262-341 | A field lookup finds a field with that number, and nothing only when there is none |
| Descriptor.FindNamed | grpc/greeter/helloworld/hello_world.pb.go:274-294 | Finding by name succeeds iff some entry carries the name, and returns such an entry |
| Descriptor.UserReqShape | grpc/greeter/helloworld/hello_world.pb.go:274-276 | The first message descriptor is named `UserReq` and has the one field `id` |
| Descriptor.UserResShape | grpc/greeter/helloworld/hello_world.pb.go:276-282 | The second is `UserRes`, with fields `id`, `name`, `email` and `phone` |
| Descriptor.HelloRequestShape | grpc/greeter/helloworld/hello_world.pb.go:282-286 | The third is `HelloRequest`, with the one field `name` |
| Descriptor.HelloReplyShape | grpc/greeter/helloworld/hello_world.pb.go:286-294 | The fourth is `HelloReply`, with fields `message`, `data` and `obj` |
| Descriptor.UserReqHasNoOptions | grpc/greeter/helloworld/hello_world.pb.go:274-276 | No field of `UserReq` has options |
| Descriptor.UserResHasNoOptions | grpc/greeter/helloworld/hello_world.pb.go:276-282 | No field of `UserRes` has options |
| Descriptor.HelloReplyHasNoOptions | grpc/greeter/helloworld/hello_world.pb.go:286-294 | No field of `HelloReply` has options |
| Descriptor.HelloRequestOptions | grpc/greeter/helloworld/hello_world.pb.go:282-286 | A field of `HelloRequest` has options iff it is `name`, and those are the 26 validation-rule bytes |
| Descriptor.FindMessage | grpc/greeter/helloworld/hello_world.pb.go:274-294 | A message lookup by name finds the descriptor of that name, and nothing for any name not declared |
| Descriptor.OptionsOfUndeclaredMessage | grpc/greeter/helloworld/hello_world.pb.go:274-294 | A message name the file does not declare has no field with options |
| Descriptor.OnlyNameFieldHasOptions | grpc/greeter/helloworld/hello_world.pb.go:274-294 | Of all fields of all messages, `HelloRequest.name` is the only one with options, and its options are the validation rule |
| Validation.NameRulesFromDescriptor | grpc/greeter/helloworld/hello_world.pb.go:283-285 | The options of `HelloRequest.name` decode to exactly the rules the validator applies: `min_len 6`, `max_len 16`, pattern `^[a-zA-Z0-9_]*$` |
| Validation.DescriptorRules | grpc/greeter/helloworld/hello_world.pb.go:274-294 | The string rules the descriptor declares for a field are the name rules for `HelloRequest.name` and none for every other field of every message |
| Validation.NamePatternParses | grpc/greeter/helloworld/hello_world.pb.go:284-285 | The pattern is an anchored, starred class of ranges a-z, A-Z, 0-9 and `_` |
| Validation.WordClassIsWordChar | grpc/greeter/helloworld/hello_world.pb.go:284-285 | A character is in that class iff it is an ASCII letter, a digit or `_` |
| Validation.NamePatternMeaning | grpc/greeter/helloworld/hello_world.pb.go:284-285 | A string matches the pattern iff every character is an ASCII letter, a digit or `_` |
| Validation.NameViolations | grpc/greeter/helloworld/hello_world.pb.go:283-285 | The rules find a length violation iff the name is outside 6..16, then a pattern violation iff it has another character |
| Validation.HelloRequestValid | grpc/greeter/helloworld/hello_world.pb.go:283-285 | A `HelloRequest` passes `ValidateAll` iff its name has 6 to 16 characters, all from `[A-Za-z0-9_]` |
| Validation.LengthOnlyViolation | grpc/greeter/helloworld/hello_world.pb.go:283-285 | A word-character name of the wrong length fails on length alone |
| Validation.PatternOnlyViolation | grpc/greeter/helloworld/hello_world.pb.go:283-285 | A name of the right length with another character fails on the pattern alone |
| Validation.ShortNameExample | grpc/greeter/helloworld/hello_world.pb.go:283-285 | `"Ada"` is rejected for its length |
| Validation.SpaceInNameExample | grpc/greeter/helloworld/hello_world.pb.go:283-285 | `"hello world"` is rejected for its pattern |
| Validation.ValidNameExample | grpc/greeter/helloworld/hello_world.pb.go:283-285 | `"hello_world"` is accepted |
| Swagger.ServeSwaggerFile | pkg/swagger/swagger.go:13-27 | NotFound iff the raw URL path does not end in `swagger.json`. A served path ends in `swagger.json` |
| Swagger.TrimKeepsSuffix | pkg/swagger/swagger.go:14-20 | Trimming `/swagger/` once cannot cut into the `swagger.json` suffix |
| Swagger.ServedFileEndsInSwaggerJson | pkg/swagger/swagger.go:14-22 | `path.Join` of the directory and the trimmed path keeps `swagger.json` at its end |
| Swagger.ServedFileStaysInDir | pkg/swagger/swagger.go:20-26 | If the trimmed path has no `..` element, the served file lies under `grpc/greeter/helloworld/` |
| Swagger.StripPrefixPath | pkg/swagger/swagger.go:36-37 | `http.StripPrefix` passes the whole path on for an empty prefix. For any other prefix it yields a path iff the prefix is present. Prefix plus result is always the original path |
| Swagger.ServeMux.Handle | pkg/swagger/swagger.go:36-37 | Registering adds exactly that pattern and handler and keeps the others |
| Swagger.ServeSwaggerUI | pkg/swagger/swagger.go:30-38 | The mux gains exactly `/swagger-ui/` → strip `/swagger-ui/` then serve from the UI assets, and nothing else changes |
| GoStrings.TrimPrefix | pkg/swagger/swagger.go:20 | With the prefix present, prefix plus the result is the input; otherwise the input is unchanged |
| GoPath.JoinSplit | pkg/swagger/swagger.go:22 | Joining the slash-separated elements of a path with `/` gives the path back |
| GoPath.SplitJoin | pkg/swagger/swagger.go:22 | Splitting a slash-join of slash-free elements gives the elements back |
| GoPath.ReduceWithoutDotDot | pkg/swagger/swagger.go:22 | Without `..`, `Clean` keeps exactly the name elements, in order |
| GoPath.CleanKeepsLastName | pkg/swagger/swagger.go:22 | `Clean` keeps a path's final name element as its final element |
| GoPath.CleanStaysUnder | pkg/swagger/swagger.go:22 | `Clean(dir + "/" + rest)` starts with `dir + "/"` when `dir` is a relative path of names and `rest` has no `..` |

## Left out

- `main()` startup (`main.go:66-138`) is not modelled: flag parsing, configuration, logger and Jaeger set-up, `net.Listen`, `http.Server.Serve`. It is process plumbing whose failure paths abort.
- The `h2c` wrapper and `http2.Server` (`main.go:142, 170`) are library code that lets cleartext HTTP/2 reach the handler. The model starts at the inner handler.
- The tracer (opentracing/Jaeger) is abstract.
  - What `Extract` returns and the context of the span `StartSpan` creates are parameters.
  - `fmt.Sprint(trace.TraceID())` is represented by the trace ID string the context carries.
- The grpc-go and grpc_opentracing interceptor library code is not modelled.
  - The server tracing interceptor is modelled abstractly: a span named after the full method around the rest of the chain, marked failed on error.
  - The client tracing interceptor in the gateway's dial options is not modelled.
- grpc-gateway's runtime mux and the generated gateway file are not part of this model.
- `hello_world.pb.validate.go`, which protoc-gen-validate generates, is not part of this model.
  - `Validation.ValidateAll` follows the rule as the descriptor states it: length, then pattern, all violations collected.
  - Lengths count characters (runes), as the generated code does.
- `internal/logic/user.go` is not modelled. It only delegates to a user store outside this model.
- Protobuf wire coding is modelled only as far as the descriptor needs it.
  - Only varint and length-delimited fields (wire types 0 and 2) are covered.
  - Of the raw descriptor, only the four `message_type` entries are written out. The file header, the service and the file options are not.
  - Protobuf reflection, the gzip-once descriptor and `file_helloworld_hello_world_proto_init` are runtime library code.
- `Validation.MatchesPattern` is not a general regular-expression engine.
  - It understands patterns of the form `^[class]*$`, which is the form the rule has.
  - Any other pattern does not match.
- `GreeterGrpc.Loopback`: a panic inside a handler, such as a failed type assertion in an interceptor's call to the handler, would crash a grpc-go server. The loopback reports it as code `Unknown`, like any other non-status error. The text of an error (`err.Error()`) is a parameter.
- The `structpb` payloads of `HelloReply` (`Data`, `Obj`) are opaque values.
- `Swagger.ServeMux` does not model pattern matching or dispatch; it only records registrations.
  - `http.StripPrefix`'s handling of `RawPath` is not modelled.
  - `http.ServeFile`, `http.NotFound` and the embedded asset file system are I/O. The model stops at the computed path, or at NotFound.
- `Swagger.ServeMux.Handle` requires a non-empty pattern that is not yet registered. Go's `ServeMux.Handle` panics otherwise, and that panic is not modelled.
- `GreeterGrpc.Forward`: the `req.(*HelloRequest)` type assertion panics in Go when it fails. That panic is modelled as the `TypeAssertionPanic` error.
- A `uint64` field is a number below 2^64, through a newtype. No arithmetic is done on one, so there is no wrap-around to model.
- The client stubs leave out `ctx` and the `opts ...grpc.CallOption` they pass on to `Invoke` (`hello_world_grpc.pb.go:49-74`). `Invoke` is a parameter of the model, so what it does with them is not observed.
- Logging (`zaplog`, `log`) has no effect on behaviour and is left out.
- Concurrent serving of requests is left out. Each request is modelled on its own.
