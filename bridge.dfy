/** The JSON-RPC gateway of mcp-bridge/bridge.py: `get_or_create_session` and
    `handle_jsonrpc`.

    The bridge holds one session slot. Every inbound JSON-RPC request other than
    `initialize` first makes sure the slot is filled, by posting an `initialize`
    request upstream and keeping the `mcp-session-id` header of the answer. The
    request is then forwarded with the session header, and the upstream answer
    (an SSE stream) is scanned for the first JSON-RPC message, which is returned
    to the client; a payload on which `json.loads` raises something other than
    a decoding error ends the scan with that error. Failures become JSON-RPC error envelopes with code -32603.

    The network is not modelled: each upstream exchange is an input `Reply`, and
    the bridge's requests are recorded in the order it sends them. */
module Bridge {
  import opened Wrappers
  import opened JsonValue
  import SseScanner

  const DefaultSession: string := "default-session"
  /** JSON-RPC 2.0 "Internal error" (section 5.1 of the JSON-RPC 2.0 specification). */
  const InternalErrorCode: int := -32603
  const NoResponseMessage: string := "No valid JSON-RPC response found in SSE stream"
  const StatusErrorPrefix: string := "FastMCP server error: "
  const OtherErrorPrefix: string := "Internal error: "

  /** What one upstream exchange gives back: a status, the optional
      `mcp-session-id` header and the body as decoded text chunks, with
      `broken` set when reading the body stopped with an error after those
      chunks; or no answer at all (`detail` is the text of the exception). */
  datatype Reply =
    | Answered(status: int, sessionHeader: Option<string>, chunks: seq<string>, broken: Option<string>)
    | NoReply(detail: string)

  /** Why an upstream exchange failed: a non-2xx status (httpx's
      `HTTPStatusError`) or any other exception. */
  datatype Failure = StatusFailure(status: int) | OtherFailure(detail: string)

  /** The inbound request body: not valid JSON, or the decoded value. */
  datatype Inbound = Unparsable(detail: string) | Parsed(body: Json)

  /** What the client gets: a status and a JSON body, or an exception that
      escapes the handler (the framework then answers on its own). */
  datatype Response = Respond(status: int, body: Json) | Unhandled

  /** One request the bridge sends to `/mcp` upstream, with the session header it carries. */
  datatype Outbound = Outbound(body: Json, sessionHeader: Option<string>)

  /** The effect of handling one request: the new session slot, the requests
      sent upstream (in order) and the response. */
  datatype Served = Served(session: Option<string>, sent: seq<Outbound>, response: Response)

  /** `raise_for_status` passes exactly the 2xx statuses. */
  predicate IsSuccess(status: int) {
    200 <= status < 300
  }

  /** The `initialize` request the bridge sends to open a session. */
  function InitializeRequest(): Json {
    JObj(map[
      "jsonrpc" := JStr("2.0"),
      "id" := JInt(0),
      "method" := JStr("initialize"),
      "params" := JObj(map[
        "protocolVersion" := JStr("2024-11-05"),
        "capabilities" := JObj(map[]),
        "clientInfo" := JObj(map["name" := JStr("mcp-bridge"), "version" := JStr("1.0.0")])])])
  }

  /** The session the `initialize` handshake yields: the `mcp-session-id`
      header when it is non-empty, `default-session` otherwise; a failed
      handshake yields its failure. A session is never the empty string. */
  function Handshake(reply: Reply): (r: Result<string, Failure>)
    ensures r.Ok? <==> reply.Answered? && IsSuccess(reply.status)
    ensures r.Ok? ==> r.value != ""
    ensures r.Ok? && reply.sessionHeader.Some? && reply.sessionHeader.value != "" ==>
      r.value == reply.sessionHeader.value
    ensures r.Ok? && (reply.sessionHeader.None? || reply.sessionHeader.value == "") ==>
      r.value == DefaultSession
    ensures reply.Answered? && !IsSuccess(reply.status) ==> r == Err(StatusFailure(reply.status))
    ensures reply.NoReply? ==> r == Err(OtherFailure(reply.detail))
  {
    match reply
    case NoReply(detail) => Err(OtherFailure(detail))
    case Answered(status, header, _, _) =>
      if !IsSuccess(status) then Err(StatusFailure(status))
      else if header.Some? && header.value != "" then Ok(header.value)
      else Ok(DefaultSession)
  }

  /** The session header a forwarded request carries: the slot's value when it
      is truthy (set and non-empty). */
  function Header(session: Option<string>): (r: Option<string>)
    ensures r.Some? <==> session.Some? && session.value != ""
    ensures r.Some? ==> r == session
  {
    if session.Some? && session.value != "" then session else None
  }

  /** `{"jsonrpc": "2.0", "id": id, "result": {}}`. */
  function AckEnvelope(id: Json): Json {
    JObj(map["jsonrpc" := JStr("2.0"), "id" := id, "result" := JObj(map[])])
  }

  /** `{"jsonrpc": "2.0", "id": id, "error": {"code": -32603, "message": message}}`. */
  function ErrorEnvelope(id: Json, message: string): Json {
    JObj(map[
      "jsonrpc" := JStr("2.0"),
      "id" := id,
      "error" := JObj(map["code" := JInt(InternalErrorCode), "message" := JStr(message)])])
  }

  /** A JSON-RPC 2.0 error object for request `id` with code -32603 and a text message. */
  predicate IsErrorEnvelope(v: Json, id: Json) {
    && v.JObj? && v.fields.Keys == {"jsonrpc", "id", "error"}
    && v.fields["jsonrpc"] == JStr("2.0") && v.fields["id"] == id
    && var e := v.fields["error"];
       e.JObj? && e.fields.Keys == {"code", "message"}
       && e.fields["code"] == JInt(InternalErrorCode) && e.fields["message"].JStr?
  }

  /** The envelope message of a failure; `statusText` stands for `str()` of
      httpx's status error for that status. */
  function FailureMessage(f: Failure, statusText: int -> string): string {
    match f
    case StatusFailure(status) => StatusErrorPrefix + statusText(status)
    case OtherFailure(detail) => OtherErrorPrefix + detail
  }

  /** The response to a request that was forwarded upstream with id `id`: a 200
      exactly when the upstream answered 2xx and either acknowledged (202) or sent
      a message line before any line whose payload made `json.loads` raise; every
      other outcome is a 500. */
  function Forward(id: Json, upstream: Reply, parse: string -> JsonLoad, statusText: int -> string): (r: Response)
    ensures r.Respond?
    ensures r.status == 200 <==>
      upstream.Answered? && IsSuccess(upstream.status)
      && (upstream.status == 202 || SseScanner.FirstMessage(SseScanner.Concat(upstream.chunks), parse).Message?)
    ensures upstream.Answered? && IsSuccess(upstream.status) && upstream.status != 202 ==>
      var scanned := SseScanner.FirstMessage(SseScanner.Concat(upstream.chunks), parse);
      scanned.Raised? ==> r == Respond(500, ErrorEnvelope(id, OtherErrorPrefix + scanned.detail))
  {
    match upstream
    case NoReply(detail) => Respond(500, ErrorEnvelope(id, FailureMessage(OtherFailure(detail), statusText)))
    case Answered(status, _, chunks, broken) =>
      if !IsSuccess(status) then Respond(500, ErrorEnvelope(id, FailureMessage(StatusFailure(status), statusText)))
      else if status == 202 then Respond(200, AckEnvelope(id))
      else match SseScanner.FirstMessage(SseScanner.Concat(chunks), parse)
        case Message(message) => Respond(200, message)
        case Raised(detail) => Respond(500, ErrorEnvelope(id, FailureMessage(OtherFailure(detail), statusText)))
        case Skipped =>
          if broken.Some? then Respond(500, ErrorEnvelope(id, FailureMessage(OtherFailure(broken.value), statusText)))
          else Respond(500, ErrorEnvelope(id, NoResponseMessage))
  }

  /** The id an error envelope carries: the body's `id` once the body is
      parsed, null when it could not be. */
  function RequestId(inbound: Inbound): (r: Json)
    ensures r != JNull ==>
      inbound.Parsed? && inbound.body.JObj? && "id" in inbound.body.fields && r == inbound.body.fields["id"]
    ensures inbound.Parsed? && inbound.body.JObj? && "id" in inbound.body.fields ==> r == inbound.body.fields["id"]
  {
    match inbound
    case Unparsable(_) => JNull
    case Parsed(body) => if body.JObj? then Get(body.fields, "id", JNull) else JNull
  }

  /** `handle_jsonrpc` on a slot holding `session`: `handshake` is the answer to
      the `initialize` request, if one is sent, and `upstream` the answer to the
      forwarded request. */
  function Serve(session: Option<string>, inbound: Inbound, handshake: Reply, upstream: Reply,
                 parse: string -> JsonLoad, statusText: int -> string): (r: Served)
    ensures r.sent == [] <==> !(inbound.Parsed? && inbound.body.JObj?)
    ensures |r.sent| <= 2
    ensures |r.sent| == 2 <==>
      && inbound.Parsed? && inbound.body.JObj? && session.None?
      && Get(inbound.body.fields, "method", JNull) != JStr("initialize")
      && Handshake(handshake).Ok?
  {
    match inbound
    case Unparsable(detail) =>
      Served(session, [], Respond(500, ErrorEnvelope(JNull, FailureMessage(OtherFailure(detail), statusText))))
    case Parsed(body) =>
      if !body.JObj? then Served(session, [], Unhandled)
      else
        var id := Get(body.fields, "id", JNull);
        if Get(body.fields, "method", JNull) != JStr("initialize") && session.None? then
          var opening := Outbound(InitializeRequest(), None);
          match Handshake(handshake)
          case Err(f) => Served(None, [opening], Respond(500, ErrorEnvelope(id, FailureMessage(f, statusText))))
          case Ok(acquired) =>
            Served(Some(acquired), [opening, Outbound(body, Header(Some(acquired)))], Forward(id, upstream, parse, statusText))
        else
          Served(session, [Outbound(body, Header(session))], Forward(id, upstream, parse, statusText))
  }

  /** The shape of every answer: a 200 carries a JSON-RPC object (the upstream
      message or the acknowledgement), every other answer is a 500 carrying a
      -32603 error envelope for the request's id, and the handler escapes with
      an exception exactly when the body is valid JSON but not an object. */
  lemma ServeShape(session: Option<string>, inbound: Inbound, handshake: Reply, upstream: Reply,
                   parse: string -> JsonLoad, statusText: int -> string)
    ensures var r := Serve(session, inbound, handshake, upstream, parse, statusText).response;
      && (r.Unhandled? <==> inbound.Parsed? && !inbound.body.JObj?)
      && (r.Respond? ==> r.status == 200 || r.status == 500)
      && (r.Respond? && r.status == 200 ==> SseScanner.IsRpcObject(r.body))
      && (r.Respond? && r.status == 500 ==> IsErrorEnvelope(r.body, RequestId(inbound)))
  {
    EnvelopeShape(RequestId(inbound));
    if inbound.Parsed? && inbound.body.JObj? {
      ForwardShape(RequestId(inbound), upstream, parse, statusText);
    }
  }

  /** Every error envelope built for `id` is a well-formed -32603 error object. */
  lemma EnvelopeShape(id: Json)
    ensures forall message :: IsErrorEnvelope(ErrorEnvelope(id, message), id)
  {
    forall message ensures IsErrorEnvelope(ErrorEnvelope(id, message), id) {
      var e := ErrorEnvelope(id, message);
      assert e.fields.Keys == {"jsonrpc", "id", "error"};
      assert e.fields["error"].fields.Keys == {"code", "message"};
    }
  }

  /** A forwarded request is answered with a 200 carrying a JSON-RPC object or
      a 500 carrying an error envelope for its id. */
  lemma ForwardShape(id: Json, upstream: Reply, parse: string -> JsonLoad, statusText: int -> string)
    ensures var r := Forward(id, upstream, parse, statusText);
      && r.Respond? && (r.status == 200 || r.status == 500)
      && (r.status == 200 ==> SseScanner.IsRpcObject(r.body))
      && (r.status == 500 ==> IsErrorEnvelope(r.body, id))
  {
    EnvelopeShape(id);
    assert "jsonrpc" in AckEnvelope(id).fields;
  }

  /** The session slot: once set it is kept and no `initialize` is sent again;
      `initialize` requests never touch it and send no handshake; otherwise an empty slot is filled by
      a successful handshake and stays empty after a failed one, so the next
      request tries again. A non-empty slot never becomes empty. */
  lemma ServeSessionSlot(session: Option<string>, body: Json, handshake: Reply, upstream: Reply,
                         parse: string -> JsonLoad, statusText: int -> string)
    requires body.JObj?
    ensures var s := Serve(session, Parsed(body), handshake, upstream, parse, statusText);
      && (session.Some? ==> s.session == session && s.sent == [Outbound(body, Header(session))])
      && (Get(body.fields, "method", JNull) == JStr("initialize") ==>
            s.session == session && s.sent == [Outbound(body, Header(session))])
      && (session.None? && Get(body.fields, "method", JNull) != JStr("initialize") ==>
            && s.sent[0] == Outbound(InitializeRequest(), None)
            && (Handshake(handshake).Ok? <==> s.session.Some?)
            && (Handshake(handshake).Ok? ==> s.session == Some(Handshake(handshake).value)))
      && ((session.Some? ==> session.value != "") ==> (s.session.Some? ==> s.session.value != ""))
  {
  }

  /** The forwarded request is the inbound body, unchanged, and it carries the
      session header exactly when the slot (after any handshake) is truthy, for
      `initialize` requests too; the response is then the forwarding rule's. */
  lemma ServeForwards(session: Option<string>, body: Json, handshake: Reply, upstream: Reply,
                      parse: string -> JsonLoad, statusText: int -> string)
    requires body.JObj?
    ensures var s := Serve(session, Parsed(body), handshake, upstream, parse, statusText);
      (s.session.Some? || Get(body.fields, "method", JNull) == JStr("initialize")) ==>
        && s.sent[|s.sent| - 1].body == body
        && (s.sent[|s.sent| - 1].sessionHeader.Some? <==> s.session.Some? && s.session.value != "")
        && s.response == Forward(Get(body.fields, "id", JNull), upstream, parse, statusText)
  {
  }

  /** A 202 is acknowledged with the request's id whatever the stream holds:
      the body is never scanned. */
  lemma AckIgnoresStream(id: Json, header: Option<string>, chunks: seq<string>, broken: Option<string>,
                         parse: string -> JsonLoad, statusText: int -> string)
    ensures Forward(id, Answered(202, header, chunks, broken), parse, statusText) == Respond(200, AckEnvelope(id))
  {
  }

  /** After a 2xx other than 202 the first complete line that is not skipped
      decides: its message is returned unchanged with status 200, and an error
      `json.loads` raised on it gives the `Internal error: ` envelope. When every
      complete line is skipped, the answer is the "no valid response" envelope
      if the stream ended normally and the `Internal error: ` envelope if
      reading it broke off. */
  lemma ForwardScans(id: Json, status: int, header: Option<string>, chunks: seq<string>, broken: Option<string>,
                     parse: string -> JsonLoad, statusText: int -> string)
    requires IsSuccess(status) && status != 202
    ensures var r := Forward(id, Answered(status, header, chunks, broken), parse, statusText);
      var lines := SseScanner.CompleteLines(SseScanner.Concat(chunks));
      && (SseScanner.AllSkipped(lines, parse) && broken.None? ==> r == Respond(500, ErrorEnvelope(id, NoResponseMessage)))
      && (SseScanner.AllSkipped(lines, parse) && broken.Some? ==>
            r == Respond(500, ErrorEnvelope(id, OtherErrorPrefix + broken.value)))
      && (!SseScanner.AllSkipped(lines, parse) ==>
            exists i :: 0 <= i < |lines| && SseScanner.AllSkipped(lines[..i], parse)
              && var line := SseScanner.LineMessage(lines[i], parse);
                 && (line.Message? ==> r == Respond(200, line.value))
                 && (line.Raised? ==> r == Respond(500, ErrorEnvelope(id, OtherErrorPrefix + line.detail))))
  {
    SseScanner.FirstMessageIsFirstLine(SseScanner.Concat(chunks), parse);
  }

  /** Status failures and other exceptions are told apart by their message prefix. */
  lemma FailureMessages(id: Json, status: int, detail: string, statusText: int -> string)
    ensures var e := ErrorEnvelope(id, FailureMessage(StatusFailure(status), statusText));
      IsErrorEnvelope(e, id) && e.fields["error"].fields["message"].s[..|StatusErrorPrefix|] == StatusErrorPrefix
    ensures var e := ErrorEnvelope(id, FailureMessage(OtherFailure(detail), statusText));
      IsErrorEnvelope(e, id) && e.fields["error"].fields["message"].s[..|OtherErrorPrefix|] == OtherErrorPrefix
  {
  }

  /** The bridge process: its session slot and the requests it has sent
      upstream to `/mcp`, oldest first. */
  class Gateway {
    var session: Option<string>
    var sent: seq<Outbound>

    /** The slot never holds the empty string. */
    ghost predicate Valid()
      reads this
    {
      session.Some? ==> session.value != ""
    }

    constructor()
      ensures Valid() && session.None? && sent == []
    {
      session := None;
      sent := [];
    }

    /** `get_or_create_session`: the slot's session when it is set, with nothing
        sent; otherwise one `initialize` request, whose answer fills the slot
        when it succeeds and leaves it empty when it fails. */
    method GetOrCreateSession(handshake: Reply) returns (r: Result<string, Failure>)
      requires Valid()
      modifies this
      ensures Valid()
      ensures old(session).Some? ==> r == Ok(old(session).value) && session == old(session) && sent == old(sent)
      ensures old(session).None? ==>
        && r == Handshake(handshake)
        && sent == old(sent) + [Outbound(InitializeRequest(), None)]
        && session == (if r.Ok? then Some(r.value) else None)
    {
      if session.Some? {
        return Ok(session.value);
      }
      sent := sent + [Outbound(InitializeRequest(), None)];
      r := Handshake(handshake);
      if r.Ok? {
        session := Some(r.value);
      }
    }

    /** `handle_jsonrpc`: its response, new slot and requests sent are those of `Serve`. */
    method HandleJsonRpc(inbound: Inbound, handshake: Reply, upstream: Reply,
                         parse: string -> JsonLoad, statusText: int -> string) returns (response: Response)
      requires Valid()
      modifies this
      ensures Valid()
      ensures var s := Serve(old(session), inbound, handshake, upstream, parse, statusText);
        response == s.response && session == s.session && sent == old(sent) + s.sent
    {
      if inbound.Unparsable? {
        return Respond(500, ErrorEnvelope(JNull, OtherErrorPrefix + inbound.detail));
      }
      var body := inbound.body;
      if !body.JObj? {
        return Unhandled;
      }
      var id := Get(body.fields, "id", JNull);
      if Get(body.fields, "method", JNull) != JStr("initialize") {
        var acquired := GetOrCreateSession(handshake);
        if acquired.Err? {
          return Respond(500, ErrorEnvelope(id, FailureMessage(acquired.error, statusText)));
        }
      }
      sent := sent + [Outbound(body, Header(session))];
      if upstream.NoReply? {
        return Respond(500, ErrorEnvelope(id, OtherErrorPrefix + upstream.detail));
      }
      if !IsSuccess(upstream.status) {
        return Respond(500, ErrorEnvelope(id, StatusErrorPrefix + statusText(upstream.status)));
      }
      if upstream.status == 202 {
        return Respond(200, AckEnvelope(id));
      }
      var found := SseScanner.ScanStream(upstream.chunks, parse);
      if found.Message? {
        return Respond(200, found.value);
      }
      if found.Raised? {
        return Respond(500, ErrorEnvelope(id, OtherErrorPrefix + found.detail));
      }
      if upstream.broken.Some? {
        return Respond(500, ErrorEnvelope(id, OtherErrorPrefix + upstream.broken.value));
      }
      response := Respond(500, ErrorEnvelope(id, NoResponseMessage));
    }
  }
}
