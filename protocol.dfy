/**
 * The JSON-RPC 2.0 side of the session engine: the request envelope `_send`
 * builds (section 4 of the JSON-RPC 2.0 specification), how `_handleResponse`
 * settles a call from a response object (section 5), how `_handleMessage`
 * classifies an inbound frame, the per-method `caller`'s argument check, and
 * the error values the client produces.
 */
module Protocol {
  import opened Wrappers
  import opened Json
  import opened Decimal
  import Naming

  /** The WebSocket's `readyState`. */
  datatype ReadyState = Connecting | Open | Closing | Closed

  /** The errors the client rejects or logs with (`Mopidy.ConnectionError`, `Mopidy.ServerError`, `Error`, `TypeError`). */
  datatype Error =
    | ConnectionError(message: string, closeEvent: Option<Json>)
    | ServerError(reported: Option<Json>, code: Option<Json>, data: Option<Json>)
    | GenericError(message: string, data: Option<Json>)
    | TypeError(message: string)

  /** The `name` property each class of error sets. */
  function ErrorName(e: Error): string {
    match e
    case ConnectionError(_, _) => "ConnectionError"
    case ServerError(_, _, _) => "ServerError"
    case GenericError(_, _) => "Error"
    case TypeError(_) => "TypeError"
  }

  /** A settled call: what its promise was resolved or rejected with. */
  datatype Outcome = Resolved(value: Json) | Rejected(error: Error)

  /** Arguments of an emitted signal or a console warning. */
  datatype Arg = J(value: Json) | E(error: Error)

  /** One entry of the session's output: an `emit(name, ...args)` or a `console.warn(text, ...args)`. */
  datatype Signal = Emitted(name: string, args: seq<Arg>) | Warned(text: string, args: seq<Arg>)

  // ----- outgoing requests -----

  /** An outgoing call description: `{method, params?}`. */
  datatype Request = Request(name: string, params: Option<Json>)

  function RequestFields(m: Request): seq<Field> {
    [Field("method", JStr(m.name))] + (if m.params.Some? then [Field("params", m.params.value)] else [])
  }

  /** `{...message, jsonrpc: "2.0", id}` */
  function Envelope(m: Request, id: nat): (e: Json)
    ensures e.JObj?
    ensures forall k :: HasKey(e.fields, k) <==> k == "method" || k == "jsonrpc" || k == "id" || (k == "params" && m.params.Some?)
    ensures forall i, j :: 0 <= i < j < |e.fields| ==> e.fields[i].key != e.fields[j].key
  {
    var tail := [Field("jsonrpc", JStr("2.0")), Field("id", JNum(id))];
    var fs := RequestFields(m) + tail;
    assert if m.params.Some? then fs == [Field("method", JStr(m.name)), Field("params", m.params.value)] + tail
           else fs == [Field("method", JStr(m.name))] + tail;
    assert forall i :: 0 <= i < |fs| ==> fs[i].key in {"method", "jsonrpc", "id"} + (if m.params.Some? then {"params"} else {});
    assert fs[0].key == "method" && fs[|fs| - 2].key == "jsonrpc" && fs[|fs| - 1].key == "id";
    assert m.params.Some? ==> fs[1].key == "params";
    JObj(fs)
  }

  /** A Request object as section 4 of the JSON-RPC 2.0 specification defines it. */
  predicate IsRequestObject(j: Json) {
    && j.JObj?
    && Member(j, "jsonrpc") == Some(JStr("2.0"))
    && Member(j, "method").Some? && Member(j, "method").value.JStr?
    && (Member(j, "params").None? || Structured(Member(j, "params").value))
    && (Member(j, "id").None? || Member(j, "id").value.JNum? || Member(j, "id").value.JStr? || Member(j, "id").value.JNull?)
  }

  /** What a server reads back out of a request envelope: the call and its id. */
  function DecodeRequest(j: Json): Option<(Request, int)> {
    if j.JObj? && Member(j, "jsonrpc") == Some(JStr("2.0"))
       && Member(j, "method").Some? && Member(j, "method").value.JStr?
       && Member(j, "id").Some? && Member(j, "id").value.JNum?
    then Some((Request(Member(j, "method").value.s, Member(j, "params")), Member(j, "id").value.n))
    else None
  }

  lemma EnvelopeMembers(m: Request, id: nat)
    ensures Member(Envelope(m, id), "method") == Some(JStr(m.name))
    ensures Member(Envelope(m, id), "params") == m.params
    ensures Member(Envelope(m, id), "jsonrpc") == Some(JStr("2.0"))
    ensures Member(Envelope(m, id), "id") == Some(JNum(id))
  {
    var tail := [Field("jsonrpc", JStr("2.0")), Field("id", JNum(id))];
    LookupCons(Field("id", JNum(id)), [], "params");
    LookupCons(Field("id", JNum(id)), [], "id");
    LookupCons(Field("jsonrpc", JStr("2.0")), [Field("id", JNum(id))], "params");
    LookupCons(Field("jsonrpc", JStr("2.0")), [Field("id", JNum(id))], "jsonrpc");
    LookupCons(Field("jsonrpc", JStr("2.0")), [Field("id", JNum(id))], "id");
    var rest := if m.params.Some? then [Field("params", m.params.value)] + tail else tail;
    if m.params.Some? {
      LookupCons(Field("params", m.params.value), tail, "params");
      LookupCons(Field("params", m.params.value), tail, "jsonrpc");
      LookupCons(Field("params", m.params.value), tail, "id");
    }
    assert RequestFields(m) + tail == [Field("method", JStr(m.name))] + rest;
    LookupCons(Field("method", JStr(m.name)), rest, "method");
    LookupCons(Field("method", JStr(m.name)), rest, "params");
    LookupCons(Field("method", JStr(m.name)), rest, "jsonrpc");
    LookupCons(Field("method", JStr(m.name)), rest, "id");
  }

  /** The envelope carries exactly the call and the id it was given. */
  lemma EnvelopeRoundTrip(m: Request, id: nat)
    ensures DecodeRequest(Envelope(m, id)) == Some((m, id as int))
  {
    EnvelopeMembers(m, id);
  }

  /** The envelope is a valid JSON-RPC request exactly when its params, if any, are structured. */
  lemma EnvelopeIsRequestObject(m: Request, id: nat)
    ensures IsRequestObject(Envelope(m, id)) <==> (m.params.None? || Structured(m.params.value))
  {
    EnvelopeMembers(m, id);
  }

  /** `_send`'s answer when the socket is not OPEN: an immediate rejection. */
  function SendRejection(s: ReadyState): (r: Option<Error>)
    ensures r.None? <==> s == Open
    ensures r.Some? ==> r.value.ConnectionError? && r.value.closeEvent.None?
  {
    match s
    case Connecting => Some(ConnectionError("WebSocket is still connecting", None))
    case Closing => Some(ConnectionError("WebSocket is closing", None))
    case Closed => Some(ConnectionError("WebSocket is closed", None))
    case Open => None
  }

  /** The rejection every pending call gets when the socket closes. */
  function ClosedError(closeEvent: Json): (e: Error)
    ensures e.ConnectionError? && ErrorName(e) == "ConnectionError"
    ensures e.closeEvent == Some(closeEvent)
  {
    ConnectionError("WebSocket closed", Some(closeEvent))
  }

  // ----- responses -----

  const NoResultMessage := "Response without 'result' or 'error' received"

  /**
   * How a response settles its call: `result` is looked at first, then `error`;
   * a response with neither is rejected with the raw response attached.
   */
  function Settle(resp: seq<Field>): (o: Outcome)
    ensures HasKey(resp, "result") ==> o == Resolved(Lookup(resp, "result").value)
    ensures !HasKey(resp, "result") && HasKey(resp, "error") ==>
              var e := Lookup(resp, "error").value;
              o == Rejected(ServerError(Member(e, "message"), Member(e, "code"), Member(e, "data")))
    ensures !HasKey(resp, "result") && !HasKey(resp, "error") ==>
              o == Rejected(GenericError(NoResultMessage, Some(JObj([Field("response", JObj(resp))]))))
  {
    match Lookup(resp, "result")
    case Some(v) => Resolved(v)
    case None =>
      match Lookup(resp, "error")
      case Some(e) => Rejected(ServerError(Member(e, "message"), Member(e, "code"), Member(e, "data")))
      case None => Rejected(GenericError(NoResultMessage, Some(JObj([Field("response", JObj(resp))]))))
  }

  /** The warning `_handleResponse` logs after settling, if any. */
  function SettleLog(resp: seq<Field>): (w: seq<Signal>)
    ensures HasKey(resp, "result") <==> w == []
  {
    match Lookup(resp, "result")
    case Some(_) => []
    case None =>
      match Lookup(resp, "error")
      case Some(e) => [Warned("Server returned error:", [J(e)])]
      case None => [Warned(NoResultMessage + ". Message was:", [J(JObj(resp))])]
  }

  /** A successful response as a JSON-RPC 2.0 server sends it (section 5). */
  function ResultResponse(id: Json, v: Json): seq<Field> {
    [Field("jsonrpc", JStr("2.0")), Field("id", id), Field("result", v)]
  }

  /** An error response as a JSON-RPC 2.0 server sends it (section 5.1); `data` may be omitted. */
  function ErrorResponse(id: Json, code: int, message: string, data: Option<Json>): seq<Field> {
    [Field("jsonrpc", JStr("2.0")), Field("id", id),
     Field("error", JObj(ErrorObject(code, message, data)))]
  }

  /** A server's result reaches the caller unchanged. */
  lemma SettleResultResponse(id: Json, v: Json)
    ensures Settle(ResultResponse(id, v)) == Resolved(v)
  {
    var r := ResultResponse(id, v);
    assert r[2] == Field("result", v);
  }

  function ErrorObject(code: int, message: string, data: Option<Json>): seq<Field> {
    [Field("code", JNum(code)), Field("message", JStr(message))]
    + (if data.Some? then [Field("data", data.value)] else [])
  }

  lemma ErrorObjectMembers(code: int, message: string, data: Option<Json>)
    ensures Lookup(ErrorObject(code, message, data), "code") == Some(JNum(code))
    ensures Lookup(ErrorObject(code, message, data), "message") == Some(JStr(message))
    ensures Lookup(ErrorObject(code, message, data), "data") == data
  {
    var opt := if data.Some? then [Field("data", data.value)] else [];
    var tail := [Field("message", JStr(message))] + opt;
    assert ErrorObject(code, message, data) == [Field("code", JNum(code))] + tail;
    LookupCons(Field("code", JNum(code)), tail, "code");
    LookupCons(Field("code", JNum(code)), tail, "message");
    LookupCons(Field("code", JNum(code)), tail, "data");
    LookupCons(Field("message", JStr(message)), opt, "message");
    LookupCons(Field("message", JStr(message)), opt, "data");
    if data.Some? {
      LookupCons(Field("data", data.value), [], "data");
    }
  }

  /** A server's error reaches the caller with its code, message and data. */
  lemma SettleErrorResponse(id: Json, code: int, message: string, data: Option<Json>)
    ensures Settle(ErrorResponse(id, code, message, data)) == Rejected(ServerError(Some(JStr(message)), Some(JNum(code)), data))
  {
    var e := Field("error", JObj(ErrorObject(code, message, data)));
    assert ErrorResponse(id, code, message, data) == [Field("jsonrpc", JStr("2.0"))] + ([Field("id", id)] + [e]);
    LookupCons(e, [], "result");
    LookupCons(e, [], "error");
    LookupCons(Field("id", id), [e], "result");
    LookupCons(Field("id", id), [e], "error");
    LookupCons(Field("jsonrpc", JStr("2.0")), [Field("id", id)] + [e], "result");
    LookupCons(Field("jsonrpc", JStr("2.0")), [Field("id", id)] + [e], "error");
    ErrorObjectMembers(code, message, data);
  }

  /**
   * The pending id a response's `id` names. The table is a JavaScript object, so
   * its keys are strings: the number `n` and the string `String(n)` both name `n`.
   */
  function ResponseKey(id: Json): (r: Option<nat>)
    ensures r.Some? ==> id == JNum(r.value) || id == JStr(NatToString(r.value))
    ensures id.JNum? && id.n >= 0 ==> r == Some(id.n)
    ensures !id.JNum? && !id.JStr? ==> r.None?
  {
    match id
    case JNum(n) => if n >= 0 then Some(n) else None
    case JStr(s) =>
      var r := ParseNat(s);
      if r.Some? then ParseNatCorrect(s, r.value); r else r
    case _ => None
  }

  lemma ResponseKeyMatches(id: Json, k: nat)
    ensures ResponseKey(id) == Some(k) <==> (id == JNum(k) || id == JStr(NatToString(k)))
  {
    if id.JStr? {
      ParseNatCorrect(id.s, k);
    }
  }

  // ----- inbound frames -----

  /** An inbound `MessageEvent`: its text, and what `JSON.parse` made of it. */
  datatype Frame = Parsed(raw: string, data: Json) | ParseFailed(raw: string)

  /** Where `_handleMessage` sends a frame. */
  datatype Route =
    | ToResponse(fields: seq<Field>)
    | ToEvent(fields: seq<Field>)
    | UnknownType
    | ParseFailure
    | NullData   // `hasOwnProperty.call(null, ...)` throws a TypeError that is not caught

  function RouteFrame(f: Frame): (r: Route)
    ensures r.ToResponse? <==> f.Parsed? && f.data.JObj? && HasKey(f.data.fields, "id")
    ensures r.ToEvent? <==> f.Parsed? && f.data.JObj? && !HasKey(f.data.fields, "id") && HasKey(f.data.fields, "event")
    ensures r.ParseFailure? <==> f.ParseFailed?
    ensures r.NullData? <==> f == Parsed(f.raw, JNull)
    ensures (r.ToResponse? || r.ToEvent?) ==> r.fields == f.data.fields
  {
    match f
    case ParseFailed(_) => ParseFailure
    case Parsed(_, JNull) => NullData
    case Parsed(_, JObj(fs)) =>
      if HasKey(fs, "id") then ToResponse(fs)
      else if HasKey(fs, "event") then ToEvent(fs)
      else UnknownType
    case Parsed(_, _) => UnknownType
  }

  function UnknownWarning(raw: string): string {
    "Unknown message type received. Message was: " + raw
  }

  function ParseWarning(raw: string): string {
    "WebSocket message parsing failed. Message was: " + raw
  }

  /** A server-pushed event frame: `{event: name, ...payload}`. */
  function EventFrame(name: string, payload: seq<Field>): seq<Field> {
    [Field("event", JStr(name))] + payload
  }

  /** The name an event is re-emitted under, `event:<camelName>`; none when `event` is not a string (snakeToCamel throws). */
  function EventName(fields: seq<Field>): (r: Option<string>)
    ensures r.Some? <==> Lookup(fields, "event").Some? && Lookup(fields, "event").value.JStr?
  {
    match Lookup(fields, "event")
    case Some(JStr(s)) => Some("event:" + Naming.SnakeToCamel(s))
    case _ => None
  }

  /** An event frame without an `id` is routed to event handling, named after its camel-cased event, and its payload is what remains. */
  lemma EventFrameRouting(raw: string, name: string, payload: seq<Field>)
    requires !HasKey(payload, "id") && !HasKey(payload, "event")
    ensures RouteFrame(Parsed(raw, JObj(EventFrame(name, payload)))) == ToEvent(EventFrame(name, payload))
    ensures EventName(EventFrame(name, payload)) == Some("event:" + Naming.SnakeToCamel(name))
    ensures Without(EventFrame(name, payload), "event") == payload
  {
    var fs := EventFrame(name, payload);
    assert fs[0] == Field("event", JStr(name));
    assert fs[1..] == payload;
    WithoutAbsent(payload, "event");
  }

  lemma {:induction false} WithoutAbsent(fs: seq<Field>, key: string)
    requires !HasKey(fs, key)
    ensures Without(fs, key) == fs
    decreases |fs|
  {
    if fs != [] {
      assert fs[0].key != key;
      WithoutAbsent(fs[1..], key);
    }
  }

  /** A response frame is routed to response handling even when it also carries `event`. */
  lemma ResponseFrameRouting(raw: string, id: Json, v: Json, extra: seq<Field>)
    ensures RouteFrame(Parsed(raw, JObj(ResultResponse(id, v) + extra))).ToResponse?
  {
    var fs := ResultResponse(id, v) + extra;
    assert fs[1].key == "id";
  }

  // ----- the per-method caller -----

  const TooManyArgsMessage := "Expected zero arguments, a single array, or a single object."
  const NotStructuredMessage := "Expected an array or an object."

  /** What a materialized method does with its arguments: send with these params, or reject without sending. */
  datatype CallPlan = SendParams(params: Option<Json>) | RejectCall(error: Error)

  /**
   * `caller(method)(...args)`. By name (the current variant, and the legacy one
   * under "by-position-or-by-name"): no argument sends no params, one array or
   * object is sent as the params, anything else is rejected. By position only
   * (the legacy default): any arguments are sent as one positional array.
   */
  function CallDecision(byName: bool, args: seq<Json>): (p: CallPlan)
    ensures p.SendParams? && p.params.Some? ==> Structured(p.params.value)
    ensures p.SendParams? <==> |args| == 0 || !byName || (|args| == 1 && Structured(args[0]))
    ensures p.SendParams? ==> (p.params.None? <==> |args| == 0)
    ensures byName && |args| == 1 && p.SendParams? ==> p.params == Some(args[0])
    ensures !byName && |args| > 0 ==> p == SendParams(Some(JArr(args)))
    ensures p.RejectCall? && |args| > 1 ==> p.error == GenericError(TooManyArgsMessage, None)
    ensures p.RejectCall? && |args| == 1 ==> p.error == TypeError(NotStructuredMessage)
  {
    if |args| == 0 then SendParams(None)
    else if !byName then SendParams(Some(JArr(args)))
    else if |args| > 1 then RejectCall(GenericError(TooManyArgsMessage, None))
    else if Structured(args[0]) then SendParams(Some(args[0]))
    else RejectCall(TypeError(NotStructuredMessage))
  }

  /** Whatever a materialized method sends is a valid JSON-RPC 2.0 request object. */
  lemma CallSendsRequestObject(byName: bool, name: string, args: seq<Json>, id: nat)
    requires CallDecision(byName, args).SendParams?
    ensures IsRequestObject(Envelope(Request(name, CallDecision(byName, args).params), id))
  {
    EnvelopeIsRequestObject(Request(name, CallDecision(byName, args).params), id);
  }
}
