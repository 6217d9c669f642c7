/**
 * FailoverRequestHandler (failover/handler.py): routes a request path to a
 * registered component, maps the component's outcome to a status, and writes
 * a plain-text response. What each component returns or raises when invoked
 * is an input.
 */
module Handler {
  import opened Outcomes
  import opened Text
  import Server

  const StatusOk := 200
  const StatusUnauthorized := 401
  const StatusNotFound := 404
  const StatusInternalServerError := 500
  const StatusServiceUnavailable := 503

  const ContentType := "text/plain; charset=utf-8"

  /** The request methods the handler serves. */
  datatype Command = GET | HEAD | POST

  /** A call of `respond(code, message)`. */
  datatype Reply = Reply(code: int, message: string)

  /** What `send_response`, `send_header`, `end_headers` and `wfile.write` emit. */
  datatype Write = StatusLine(code: int) | Header(name: string, value: string) | EndHeaders | Body(bytes: seq<byte>)

  /** `path.lstrip("/")`: the component name a request path addresses. */
  function ComponentName(path: string): (name: string)
    ensures name == [] || name[0] != '/'
    ensures |name| <= |path| && path == seq(|path| - |name|, _ => '/') + name
  {
    var name := LStrip(path, {'/'});
    assert path == path[..|path| - |name|] + name;
    name
  }

  /** No request path reaches a component registered under a name that starts with '/'. */
  lemma SlashNameUnreachable(path: string, name: string)
    requires name != [] && name[0] == '/'
    ensures ComponentName(path) != name
  {
  }

  /** `do_GET` and `do_HEAD` look components up in `get_handlers`, `do_POST` in `post_handlers`. */
  function ComponentMap(command: Command, getHandlers: map<string, Server.ComponentId>, postHandlers: map<string, Server.ComponentId>)
    : (m: map<string, Server.ComponentId>)
    ensures m == if command == POST then postHandlers else getHandlers
  {
    match command
    case GET => getHandlers
    case HEAD => getHandlers
    case POST => postHandlers
  }

  /** The decision `select_and_run_component` makes: which component it invokes and what it replies. */
  datatype Dispatch = Dispatch(invoked: Option<Server.ComponentId>, reply: Reply)

  function Route(components: map<string, Server.ComponentId>, path: string, invoke: Server.ComponentId -> Outcome<bool>)
    : (d: Dispatch)
    ensures d.invoked.None? <==> ComponentName(path) !in components
    ensures d.invoked.Some? ==> d.invoked.value == components[ComponentName(path)]
    ensures d.reply.code == StatusNotFound <==> d.invoked.None?
    ensures d.reply.code == StatusOk <==> d.invoked.Some? && invoke(d.invoked.value) == Returned(true)
    ensures d.reply.code == StatusServiceUnavailable <==> d.invoked.Some? && invoke(d.invoked.value) == Returned(false)
    ensures d.reply.code == StatusInternalServerError <==> d.invoked.Some? && invoke(d.invoked.value).Raised?
    ensures d.reply.message ==
      if d.reply.code == StatusOk then "OK" else if d.reply.code == StatusServiceUnavailable then "FAIL" else "ERROR"
  {
    var name := ComponentName(path);
    if name !in components then Dispatch(None, Reply(StatusNotFound, "ERROR"))
    else
      var component := components[name];
      var reply := match invoke(component)
        case Returned(true) => Reply(StatusOk, "OK")
        case Returned(false) => Reply(StatusServiceUnavailable, "FAIL")
        case Raised(_) => Reply(StatusInternalServerError, "ERROR");
      Dispatch(Some(component), reply)
  }

  /** The writes `respond(code, message)` makes, in order, for a request with `command`. */
  function ResponseWrites(command: Command, code: int, message: string): (w: seq<Write>)
    // Five writes of status and headers, then the body unless the request is HEAD.
    ensures |w| == if command == HEAD then 5 else 6
    ensures w[0] == StatusLine(code) && w[4] == EndHeaders
    ensures forall i :: 1 <= i < 4 ==> w[i].Header?
    ensures command != HEAD ==> w[5] == Body(EncodeUtf8(message))
  {
    var body := EncodeUtf8(message);
    [StatusLine(code),
     Header("Content-Type", ContentType),
     Header("Content-Length", DecimalString(|body|)),
     Header("Connection", "close"),
     EndHeaders]
    + if command != HEAD then [Body(body)] else []
  }

  /**
   * Every response is plain UTF-8 text on a closed connection; its
   * Content-Length header, written without leading zeros, denotes the byte
   * length of the encoded message; the body is those bytes, and it is written
   * exactly when the request is not HEAD.
   */
  lemma ResponseFraming(command: Command, code: int, message: string)
    ensures var w := ResponseWrites(command, code, message);
      && |w| >= 5 && w[0] == StatusLine(code) && w[4] == EndHeaders
      && w[1] == Header("Content-Type", ContentType)
      && w[3] == Header("Connection", "close")
      && w[2].Header? && w[2].name == "Content-Length" && AllDigits(w[2].value)
      && ParseDecimal(w[2].value) == |EncodeUtf8(message)|
      && w[2].value != [] && (w[2].value[0] == '0' ==> |EncodeUtf8(message)| == 0)
      && (|w| == 6 <==> command != HEAD)
      && (forall i :: 0 <= i < |w| && w[i].Body? ==> i == 5 && w[i].bytes == EncodeUtf8(message))
      && (forall i :: 0 <= i < |w| && i != 5 ==> !w[i].Body?)
  {
    ParseDecimalString(|EncodeUtf8(message)|);
  }

  /** The request handler; `written` is what it has sent on the connection. */
  class RequestHandler {
    const command: Command
    const path: string
    var written: seq<Write>

    constructor (command: Command, path: string)
      ensures this.command == command && this.path == path && written == []
    {
      this.command := command;
      this.path := path;
      written := [];
    }

    /** `respond(code, message)`: the status line, three headers, the blank line, and the body unless HEAD. */
    method Respond(code: int, message: string)
      modifies this
      ensures written == old(written) + ResponseWrites(command, code, message)
    {
      written := written + [StatusLine(code)];
      var body := EncodeUtf8(message);
      written := written + [Header("Content-Type", ContentType)];
      written := written + [Header("Content-Length", DecimalString(|body|))];
      written := written + [Header("Connection", "close")];
      written := written + [EndHeaders];
      if command != HEAD {
        written := written + [Body(body)];
      }
    }

    /** `select_and_run_component(component_map)`: the routing decision, then one response. */
    method SelectAndRunComponent(components: map<string, Server.ComponentId>, invoke: Server.ComponentId -> Outcome<bool>)
      returns (ghost invoked: Option<Server.ComponentId>)
      modifies this
      ensures invoked == Route(components, path, invoke).invoked
      ensures written == old(written) + ResponseWrites(command, Route(components, path, invoke).reply.code,
                                                       Route(components, path, invoke).reply.message)
    {
      ghost var d := Route(components, path, invoke);
      var name := LStrip(path, {'/'});
      if name !in components {
        invoked := None;
        assert d.reply == Reply(StatusNotFound, "ERROR");
        Respond(StatusNotFound, "ERROR");
        return;
      }
      var component := components[name];
      invoked := Some(component);
      match invoke(component)
      case Returned(healthy) =>
        if healthy {
          assert d.reply == Reply(StatusOk, "OK");
          Respond(StatusOk, "OK");
        } else {
          assert d.reply == Reply(StatusServiceUnavailable, "FAIL");
          Respond(StatusServiceUnavailable, "FAIL");
        }
      case Raised(_) =>
        assert d.reply == Reply(StatusInternalServerError, "ERROR");
        Respond(StatusInternalServerError, "ERROR");
    }

    /** `do_GET`, `do_HEAD` and `do_POST`, dispatched on the request's command. */
    method Handle(server: Server.FailoverServer, invoke: Server.ComponentId -> Outcome<bool>)
      returns (ghost invoked: Option<Server.ComponentId>)
      modifies this
      ensures var d := Route(ComponentMap(command, server.getHandlers, server.postHandlers), path, invoke);
        invoked == d.invoked && written == old(written) + ResponseWrites(command, d.reply.code, d.reply.message)
    {
      if command == POST {
        invoked := SelectAndRunComponent(server.postHandlers, invoke);
      } else {
        invoked := SelectAndRunComponent(server.getHandlers, invoke);
      }
    }
  }
}
