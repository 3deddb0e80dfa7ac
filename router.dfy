/**
 * main.go, `grpcHandlerFunc`: the single entry handler in front of both the
 * gRPC server and the grpc-gateway mux.
 *
 * The tracer is abstract. What its `Extract` returns for the request's
 * headers, and the context of the span it starts, are parameters; the two
 * downstream handlers are opaque and only their calls are recorded. The
 * `h2c` wrapper that lets cleartext HTTP/2 reach this handler is not part
 * of the model.
 */
module Router {

  import opened Wrappers
  import opened GoStrings
  import opened GoHttp

  // ---------------------------------------------------------------------------
  // Requests, spans and the tracer's answers

  /** A span context: a Jaeger one carries the trace ID (as `fmt.Sprint` renders it). */
  datatype SpanContext = JaegerContext(traceId: string) | OtherContext(id: nat)

  /** `tracer.Extract(HTTPHeaders, r.Header)`: a context, `ErrSpanContextNotFound`, or another error. */
  datatype ExtractResult = Extracted(parent: SpanContext) | SpanContextNotFound | ExtractFailed(reason: string)

  /** A started span: operation, `ChildOf` parent if any, the tags it was started with, its own context. */
  datatype Span = Span(operation: string, parent: Option<SpanContext>, tags: seq<(string, string)>, context: SpanContext)

  /** What the handler reads of `r`, and the span attached to its context, if any. */
  datatype Request = Request(protoMajor: nat, header: Header, span: Option<Span>)

  /** The calls the handler makes, in order. */
  datatype Event =
    | GrpcServed(r: Request)
    | GatewayServed(r: Request)
    | SpanStarted(span: Span)
    | HeaderWritten(key: string, value: string)
    | SpanFinished(span: Span)

  const GrpcContentType: string := "application/grpc"

  /** `jaeger.TraceContextHeaderName`. */
  const TraceContextHeaderName: string := "uber-trace-id"

  /** `ext.RPCServerOption` (span.kind = server) and `grpcGatewayTag` (component = grpc-gateway). */
  const ServerSpanTags: seq<(string, string)> := [("span.kind", "server"), ("component", "grpc-gateway")]

  // ---------------------------------------------------------------------------
  // The specification of one request

  /** The routing decision: HTTP/2 and a Content-Type containing `application/grpc`. */
  predicate RoutesToGrpc(r: Request) {
    r.protoMajor == 2 && Contains(HeaderGet(r.header, "Content-Type"), GrpcContentType)
  }

  /** Whether the tracer's answer lets the handler start a span. */
  predicate StartsSpan(e: ExtractResult) {
    e.Extracted? || e.SpanContextNotFound?
  }

  /** The span `StartSpan("ServeHTTP", RPCServerOption(parent), grpcGatewayTag)` starts. */
  function ServerSpan(e: ExtractResult, context: SpanContext): Span {
    var parent := if e.Extracted? then Some(e.parent) else None;
    Span("ServeHTTP", parent, ServerSpanTags, context)
  }

  /** The header write a started span causes: the trace ID, for a Jaeger context only. */
  function TraceHeaderWrites(s: Span): seq<Event> {
    if s.context.JaegerContext? then [HeaderWritten(TraceContextHeaderName, s.context.traceId)] else []
  }

  /**
   * The calls one request causes, given the tracer's answer to `Extract` and
   * the context of the span it would start.
   */
  function Handle(r: Request, extracted: ExtractResult, newContext: SpanContext): seq<Event> {
    if RoutesToGrpc(r) then [GrpcServed(r)] else GatewayBranch(r, extracted, newContext)
  }

  /** The calls on the gateway branch. */
  function GatewayBranch(r: Request, extracted: ExtractResult, newContext: SpanContext): seq<Event> {
    if StartsSpan(extracted) then
      var s := ServerSpan(extracted, newContext);
      [SpanStarted(s)] + TraceHeaderWrites(s) + [GatewayServed(r.(span := Some(s))), SpanFinished(s)]
    else [GatewayServed(r)]
  }

  /** The response header after the gateway branch. */
  function GatewayHeader(h: Header, extracted: ExtractResult, newContext: SpanContext): Header {
    if StartsSpan(extracted) && newContext.JaegerContext? then
      HeaderSet(h, TraceContextHeaderName, newContext.traceId)
    else h
  }

  /** The response header after one request. */
  function HeaderAfter(h: Header, r: Request, extracted: ExtractResult, newContext: SpanContext): Header {
    if RoutesToGrpc(r) then h else GatewayHeader(h, extracted, newContext)
  }

  // ---------------------------------------------------------------------------
  // The handler

  /** The handler `grpcHandlerFunc` returns, with the log of the calls it has made. */
  class EntryHandler {
    var log: seq<Event>

    constructor ()
      ensures log == []
    {
      log := [];
    }

    /** `ServeHTTP(w, r)`. */
    method ServeHTTP(w: ResponseWriter, r: Request, extracted: ExtractResult, newContext: SpanContext)
      modifies this, w
      ensures log == old(log) + Handle(r, extracted, newContext)
      ensures w.header == HeaderAfter(old(w.header), r, extracted, newContext)
    {
      if r.protoMajor == 2 && Contains(HeaderGet(r.header, "Content-Type"), "application/grpc") {
        log := log + [GrpcServed(r)];
      } else {
        ServeGateway(w, r, extracted, newContext);
      }
    }

    /** The `else` branch, in the order the Go code runs it (the deferred `Finish` last). */
    method ServeGateway(w: ResponseWriter, r: Request, extracted: ExtractResult, newContext: SpanContext)
      modifies this, w
      ensures log == old(log) + GatewayBranch(r, extracted, newContext)
      ensures w.header == GatewayHeader(old(w.header), extracted, newContext)
    {
      var req := r;
      var deferred: Option<Span> := None;
      if extracted.Extracted? || extracted.SpanContextNotFound? {
        var serverSpan := StartServerSpan(w, extracted, newContext);
        req := req.(span := Some(serverSpan));
        deferred := Some(serverSpan);
      }
      log := log + [GatewayServed(req)];
      if deferred.Some? {
        log := log + [SpanFinished(deferred.value)];
        SpanEvents(old(log), deferred.value, req);
      }
    }

    /** Starts the server span and writes its trace ID into the response header when it is a Jaeger span. */
    method StartServerSpan(w: ResponseWriter, extracted: ExtractResult, newContext: SpanContext) returns (serverSpan: Span)
      requires StartsSpan(extracted)
      modifies this, w
      ensures serverSpan == ServerSpan(extracted, newContext)
      ensures log == old(log) + [SpanStarted(serverSpan)] + TraceHeaderWrites(serverSpan)
      ensures w.header == GatewayHeader(old(w.header), extracted, newContext)
    {
      serverSpan := ServerSpan(extracted, newContext);
      log := log + [SpanStarted(serverSpan)];
      if serverSpan.context.JaegerContext? {
        w.SetHeader(TraceContextHeaderName, serverSpan.context.traceId);
        log := log + [HeaderWritten(TraceContextHeaderName, serverSpan.context.traceId)];
      }
    }
  }

  /** The log of the traced gateway branch, regrouped as `GatewayBranch` writes it. */
  lemma SpanEvents(log: seq<Event>, s: Span, req: Request)
    ensures log + [SpanStarted(s)] + TraceHeaderWrites(s) + [GatewayServed(req)] + [SpanFinished(s)] ==
            log + ([SpanStarted(s)] + TraceHeaderWrites(s) + [GatewayServed(req), SpanFinished(s)])
  {
  }

  // ---------------------------------------------------------------------------
  // Properties

  /** The number of downstream calls in a log. */
  function DownstreamCalls(es: seq<Event>): nat {
    if |es| == 0 then 0
    else (if es[0].GrpcServed? || es[0].GatewayServed? then 1 else 0) + DownstreamCalls(es[1..])
  }

  lemma {:induction false} DownstreamCallsAppend(a: seq<Event>, b: seq<Event>)
    ensures DownstreamCalls(a + b) == DownstreamCalls(a) + DownstreamCalls(b)
    decreases |a|
  {
    if |a| == 0 {
      assert a + b == b;
    } else {
      assert (a + b)[1..] == a[1..] + b;
      DownstreamCallsAppend(a[1..], b);
    }
  }

  /** Requests go to the gRPC server iff they are HTTP/2 with `application/grpc` somewhere in Content-Type. */
  lemma RouteRule(r: Request)
    ensures RoutesToGrpc(r) <==>
      r.protoMajor == 2 && exists i :: OccursAt(HeaderGet(r.header, "Content-Type"), GrpcContentType, i)
  {
  }

  /** A request whose Content-Type header was set to `ct`. */
  function WithContentType(protoMajor: nat, ct: string): Request {
    Request(protoMajor, HeaderSet(map[], "Content-Type", ct), None)
  }

  lemma GrpcOverHttp2Example()
    ensures RoutesToGrpc(WithContentType(2, "application/grpc+proto"))
  {
    var ct := "application/grpc+proto";
    GetAfterSet(map[], "Content-Type", "Content-Type", ct);
    assert ct[..|GrpcContentType|] == GrpcContentType;
    assert OccursAt(ct, GrpcContentType, 0);
  }

  lemma GrpcOverHttp1Example()
    ensures !RoutesToGrpc(WithContentType(1, "application/grpc"))
  {
  }

  /** A request without a Content-Type header goes to the gateway, whatever its protocol. */
  lemma NoContentTypeGoesToGateway(protoMajor: nat)
    ensures !RoutesToGrpc(Request(protoMajor, map[], None))
  {
    assert !OccursAt("", GrpcContentType, 0);
  }

  /** Every request reaches exactly one downstream handler: the gRPC server iff it routes there. */
  lemma ExactlyOneDownstream(r: Request, extracted: ExtractResult, newContext: SpanContext)
    ensures DownstreamCalls(Handle(r, extracted, newContext)) == 1
    ensures (exists i :: 0 <= i < |Handle(r, extracted, newContext)| && Handle(r, extracted, newContext)[i].GrpcServed?) <==>
      RoutesToGrpc(r)
  {
    var es := Handle(r, extracted, newContext);
    if !RoutesToGrpc(r) && StartsSpan(extracted) {
      var s := ServerSpan(extracted, newContext);
      var hs := TraceHeaderWrites(s);
      DownstreamCallsAppend([SpanStarted(s)] + hs, [GatewayServed(r.(span := Some(s))), SpanFinished(s)]);
      DownstreamCallsAppend([SpanStarted(s)], hs);
      assert DownstreamCalls([SpanStarted(s)]) == 0;
      assert DownstreamCalls(hs) == 0 by {
        if |hs| == 1 { assert hs[1..] == []; }
      }
      var tail := [GatewayServed(r.(span := Some(s))), SpanFinished(s)];
      assert tail[1..] == [SpanFinished(s)] && tail[1..][1..] == [];
      assert DownstreamCalls(tail) == 1;
      assert forall i :: 0 <= i < |es| ==> !es[i].GrpcServed?;
    } else if !RoutesToGrpc(r) {
      assert es[0] == GatewayServed(r);
    } else {
      assert es[0].GrpcServed?;
    }
  }

  /** On the gRPC branch the tracer's answers change nothing, and no header is written. */
  lemma NativeBranchUntraced(r: Request, e1: ExtractResult, c1: SpanContext, e2: ExtractResult, c2: SpanContext, h: Header)
    requires RoutesToGrpc(r)
    ensures Handle(r, e1, c1) == Handle(r, e2, c2) == [GrpcServed(r)]
    ensures HeaderAfter(h, r, e1, c1) == h
  {
  }

  /** On the gateway branch, a span is started iff `Extract` found a context or reported none. */
  lemma SpanStartedIff(r: Request, extracted: ExtractResult, newContext: SpanContext)
    requires !RoutesToGrpc(r)
    ensures (exists i :: 0 <= i < |Handle(r, extracted, newContext)| && Handle(r, extracted, newContext)[i].SpanStarted?) <==>
      StartsSpan(extracted)
  {
    var es := Handle(r, extracted, newContext);
    if StartsSpan(extracted) {
      assert es[0].SpanStarted?;
    }
  }

  /** Any other `Extract` error still reaches the gateway, with the request as it came and no header. */
  lemma ExtractErrorStillServed(r: Request, reason: string, newContext: SpanContext, h: Header)
    requires !RoutesToGrpc(r)
    ensures Handle(r, ExtractFailed(reason), newContext) == [GatewayServed(r)]
    ensures HeaderAfter(h, r, ExtractFailed(reason), newContext) == h
  {
  }

  /**
   * A started span: its parent is the extracted context (none when there was
   * none), it carries the server and grpc-gateway tags, it rides on the
   * request passed to the gateway, and it is finished once, last, after the
   * gateway returns.
   */
  lemma StartedSpanLifecycle(r: Request, extracted: ExtractResult, newContext: SpanContext)
    requires !RoutesToGrpc(r) && StartsSpan(extracted)
    ensures var es := Handle(r, extracted, newContext);
      var s := es[0].span;
      es[0].SpanStarted? &&
      s.operation == "ServeHTTP" && s.tags == ServerSpanTags && s.context == newContext &&
      (extracted.Extracted? ==> s.parent == Some(extracted.parent)) &&
      (extracted.SpanContextNotFound? ==> s.parent == None) &&
      es[|es| - 2] == GatewayServed(r.(span := Some(s))) &&
      es[|es| - 1] == SpanFinished(s) &&
      (forall i :: 0 < i < |es| ==> !es[i].SpanStarted?) &&
      (forall i :: 0 <= i < |es| - 1 ==> !es[i].SpanFinished?)
  {
    var es := Handle(r, extracted, newContext);
    var s := ServerSpan(extracted, newContext);
    assert es == [SpanStarted(s)] + TraceHeaderWrites(s) + [GatewayServed(r.(span := Some(s))), SpanFinished(s)];
  }

  /**
   * The trace header is written iff a span was started with a Jaeger context,
   * and then it holds that context's trace ID, under the canonical key.
   */
  lemma TraceHeaderIff(h: Header, r: Request, extracted: ExtractResult, newContext: SpanContext)
    ensures HeaderAfter(h, r, extracted, newContext) != h ==>
      !RoutesToGrpc(r) && StartsSpan(extracted) && newContext.JaegerContext?
    ensures !RoutesToGrpc(r) && StartsSpan(extracted) && newContext.JaegerContext? ==>
      HeaderGet(HeaderAfter(h, r, extracted, newContext), TraceContextHeaderName) == newContext.traceId
  {
    if !RoutesToGrpc(r) && StartsSpan(extracted) && newContext.JaegerContext? {
      GetAfterSet(h, TraceContextHeaderName, TraceContextHeaderName, newContext.traceId);
    }
  }
}
