/** Which messages a request is answered with: at most one response, whatever the tools do. */
module JsonRpc {

  datatype Json =
    | Null
    | Bool(b: bool)
    | Number(n: int)
    | Text(s: string)
    | Array(items: seq<Json>)
    | Object(fields: map<string, Json>)
  {
    predicate Has(key: string) {
      Object? && key in fields
    }

    /** The member of that name, or null where there is none. */
    function Get(key: string): Json {
      if Has(key) then fields[key] else Null
    }
  }

  /** An exception that says what happened, or any other. */
  datatype Exception = Described(what: string) | Unknown

  /** A call that may raise an exception. */
  datatype Attempt<T> = Gives(value: T) | Raises(exception: Exception)

  datatype Contents = Contents(value: Json) | Unreadable(error: string)

  /** What a tool returns; structured content is optional. */
  datatype ToolOutput = ToolOutput(text: string, isError: bool, structured: Json)

  /** What the tools do when a request reaches them: a resource by its uri, a call by its name and arguments. */
  datatype Tools = Tools(
    toolList: Attempt<Json>,
    resourceList: Attempt<Json>,
    resource: string -> Attempt<Contents>,
    call: (string, Json) -> Attempt<ToolOutput>)

  const INVALID_REQUEST := -32600
  const METHOD_NOT_FOUND := -32601
  const INVALID_PARAMS := -32602
  const INTERNAL_ERROR := -32603
  const PARSE_ERROR := -32700
  const RESOURCE_ERROR := -32002

  const INITIALIZED := "notifications/initialized"

  function Result(id: Json, result: Json): Json {
    Object(map["jsonrpc" := Text("2.0"), "id" := id, "result" := result])
  }

  function Error(id: Json, code: int, message: string): Json {
    Object(map["jsonrpc" := Text("2.0"), "id" := id,
               "error" := Object(map["code" := Number(code), "message" := Text(message)])])
  }

  const LIST_CHANGED := Object(map[
    "jsonrpc" := Text("2.0"), "method" := Text("notifications/tools/list_changed")])

  const INITIALIZE_RESULT := Object(map[
    "protocolVersion" := Text("2024-11-05"),
    "capabilities" := Object(map[
      "tools" := Object(map["listChanged" := Bool(true)]),
      "resources" := Object(map["listChanged" := Bool(false)])]),
    "serverInfo" := Object(map["name" := Text("JohnJuliaMCP"), "version" := Text("0.1.0")])])

  /** What `dispatch_mcp_request` does: it may itself write one message, then answers or not, or raises. */
  datatype Outcome = Reply(response: Json) | Silence(written: seq<Json>) | Raised(exception: Exception)

  function Member(key: string, value: Json): Json {
    Object(map[key := value])
  }

  function Listed(id: Json, key: string, listing: Attempt<Json>): Outcome {
    match listing
    case Gives(value) => Reply(Result(id, Member(key, value)))
    case Raises(exception) => Raised(exception)
  }

  function ReadResource(id: Json, request: Json, tools: Tools): Outcome {
    if !request.Get("params").Object? then
      Reply(Error(id, INVALID_PARAMS, "resources/read params must be an object"))
    else if !request.Get("params").Get("uri").Text? then
      Reply(Error(id, INVALID_PARAMS, "resources/read params.uri must be a string"))
    else
      match tools.resource(request.Get("params").Get("uri").s)
      case Raises(exception) => Raised(exception)
      case Gives(Unreadable(error)) => Reply(Error(id, RESOURCE_ERROR, error))
      case Gives(Contents(value)) => Reply(Result(id, value))
  }

  /** `tool_result_json`. */
  function ToolResult(output: ToolOutput): Json {
    var content := Array([Object(map["type" := Text("text"), "text" := Text(output.text)])]);
    var payload := map["content" := content];
    var flagged := if output.isError then payload["isError" := Bool(true)] else payload;
    Object(if output.structured.Null? then flagged else flagged["structuredContent" := output.structured])
  }

  /** A call without arguments has an empty object of them. */
  function Arguments(params: Json): Json {
    if params.Has("arguments") then params.Get("arguments") else Object(map[])
  }

  function CallTool(id: Json, request: Json, tools: Tools): Outcome {
    var params := request.Get("params");
    if !params.Object? then
      Reply(Error(id, INVALID_PARAMS, "tools/call params must be an object"))
    else if !params.Get("name").Text? then
      Reply(Error(id, INVALID_PARAMS, "tools/call params.name must be a string"))
    else if params.Has("arguments") && !params.Get("arguments").Object? then
      Reply(Error(id, INVALID_PARAMS, "tools/call params.arguments must be an object"))
    else
      match tools.call(params.Get("name").s, Arguments(params))
      case Gives(output) => Reply(Result(id, ToolResult(output)))
      case Raises(Described(what)) => Reply(Error(id, INTERNAL_ERROR, "tool call failed: " + what))
      case Raises(Unknown) => Reply(Error(id, INTERNAL_ERROR, "tool call failed with an unknown exception"))
  }

  /** `dispatch_mcp_request`; taking a version that is not a string for a string raises. */
  function Dispatch(request: Json, tools: Tools): Outcome {
    var id := request.Get("id");
    if !request.Object? then Reply(Error(id, INVALID_REQUEST, "Invalid Request"))
    else if request.Has("jsonrpc") && !request.Get("jsonrpc").Text? then Raised(Described("type must be string"))
    else if request.Get("jsonrpc") != Text("2.0") || !request.Get("method").Text? then
      Reply(Error(id, INVALID_REQUEST, "Invalid Request"))
    else
      var m := request.Get("method").s;
      if m == INITIALIZED then Silence([LIST_CHANGED])
      else if !request.Has("id") then Silence([])
      else if m == "initialize" then Reply(Result(id, INITIALIZE_RESULT))
      else if m == "ping" then Reply(Result(id, Object(map[])))
      else if m == "tools/list" then Listed(id, "tools", tools.toolList)
      else if m == "resources/list" then Listed(id, "resources", tools.resourceList)
      else if m == "resources/read" then ReadResource(id, request, tools)
      else if m == "tools/call" then CallTool(id, request, tools)
      else Reply(Error(id, METHOD_NOT_FOUND, "Method not found"))
  }

  /** `handle_request`: everything written for one request; an exception becomes an error response. */
  function Handle(request: Json, tools: Tools): seq<Json> {
    match Dispatch(request, tools)
    case Reply(response) => [response]
    case Silence(written) => written
    case Raised(Described(what)) => [Error(request.Get("id"), INTERNAL_ERROR, "internal error: " + what)]
    case Raised(Unknown) => [Error(request.Get("id"), INTERNAL_ERROR, "internal error")]
  }

  // ----- JSON-RPC 2.0 -----

  /** Section 4: a request object names the version and a method. */
  predicate WellFormed(request: Json) {
    request.Get("jsonrpc") == Text("2.0") && request.Get("method").Text?
  }

  /** Section 4.1: a notification is a request without an id. */
  predicate Notification(request: Json) {
    WellFormed(request) && !request.Has("id")
  }

  /** Section 5: the version, an id, and either a result or an error. */
  predicate Response(message: Json) {
    && message.Get("jsonrpc") == Text("2.0") && message.Has("id")
    && (message.Has("result") <==> !message.Has("error"))
  }

  predicate Unanswered(request: Json) {
    Notification(request) || (WellFormed(request) && request.Get("method").s == INITIALIZED)
  }

  function ResponseIds(messages: seq<Json>): multiset<Json> {
    if messages == [] then multiset{}
    else
      var last := messages[|messages| - 1];
      ResponseIds(messages[..|messages| - 1]) + if Response(last) then multiset{last.Get("id")} else multiset{}
  }

  /** The ids that must come back for one request: its own, or null if it has none. */
  function Owed(request: Json): multiset<Json> {
    if Unanswered(request) then multiset{} else multiset{request.Get("id")}
  }

  lemma ResultIsResponse(id: Json, result: Json)
    ensures Response(Result(id, result)) && Result(id, result).Get("id") == id
  {
  }

  lemma ErrorIsResponse(id: Json, code: int, message: string)
    ensures Response(Error(id, code, message)) && Error(id, code, message).Get("id") == id
    ensures Error(id, code, message).Get("error").Get("code") == Number(code)
  {
  }

  lemma ListChangedIsNoResponse()
    ensures !Response(LIST_CHANGED)
  {
    assert !LIST_CHANGED.Has("id");
  }

  lemma OneMessage(message: Json)
    ensures ResponseIds([message]) == if Response(message) then multiset{message.Get("id")} else multiset{}
  {
    assert [message][..0] == [];
  }

  /** A reply is a response with the given id. */
  predicate Answers(id: Json, outcome: Outcome) {
    match outcome
    case Reply(response) => Response(response) && response.Get("id") == id
    case Silence(_) => false
    case Raised(_) => true
  }

  lemma ResultAnswers(id: Json, result: Json)
    ensures Answers(id, Reply(Result(id, result)))
  {
    ResultIsResponse(id, result);
  }

  lemma ErrorAnswers(id: Json, code: int, message: string)
    ensures Answers(id, Reply(Error(id, code, message)))
  {
    ErrorIsResponse(id, code, message);
  }

  lemma ToolsAnswer(id: Json, request: Json, tools: Tools)
    ensures forall key, listing :: Answers(id, Listed(id, key, listing))
    ensures Answers(id, ReadResource(id, request, tools))
    ensures Answers(id, CallTool(id, request, tools))
  {
    hide Answers, Result, Error, ReadResource, CallTool;
    RaisingAnswers(id);
    forall result { ResultAnswers(id, result); }
    ResourceAnswers(id, request, tools);
    CallAnswers(id, request, tools);
  }

  lemma ResourceAnswers(id: Json, request: Json, tools: Tools)
    ensures Answers(id, ReadResource(id, request, tools))
  {
    hide Answers, Result, Error;
    RaisingAnswers(id);
    forall result { ResultAnswers(id, result); }
    forall code, message { ErrorAnswers(id, code, message); }
  }

  lemma CallAnswers(id: Json, request: Json, tools: Tools)
    ensures Answers(id, CallTool(id, request, tools))
  {
    hide Answers, Result, Error, ToolResult, Arguments;
    ErrorAnswers(id, INVALID_PARAMS, "tools/call params must be an object");
    ErrorAnswers(id, INVALID_PARAMS, "tools/call params.name must be a string");
    ErrorAnswers(id, INVALID_PARAMS, "tools/call params.arguments must be an object");
    ErrorAnswers(id, INTERNAL_ERROR, "tool call failed with an unknown exception");
    var params := request.Get("params");
    if GoodCall(params) {
      match tools.call(params.Get("name").s, Arguments(params))
      case Gives(output) => ResultAnswers(id, ToolResult(output));
      case Raises(Described(what)) => ErrorAnswers(id, INTERNAL_ERROR, "tool call failed: " + what);
      case Raises(Unknown) =>
    }
  }

  lemma RaisingAnswers(id: Json)
    ensures forall exception :: Answers(id, Raised(exception))
  {
  }

  /** Only unanswered requests meet silence. */
  lemma ReplyIsResponse(request: Json, tools: Tools)
    ensures var outcome := Dispatch(request, tools);
      if Unanswered(request) then outcome.Silence? && (outcome.written == [] || outcome.written == [LIST_CHANGED])
      else Answers(request.Get("id"), outcome)
  {
    hide Answers, Result, Error, INITIALIZE_RESULT, Listed, ReadResource, CallTool;
    var id := request.Get("id");
    RaisingAnswers(id);
    ToolsAnswer(id, request, tools);
    ResultAnswers(id, INITIALIZE_RESULT);
    ResultAnswers(id, Object(map[]));
    ErrorAnswers(id, METHOD_NOT_FOUND, "Method not found");
    ErrorAnswers(id, INVALID_REQUEST, "Invalid Request");
  }

  /** Every request gets exactly the responses it is owed: one with its id, or none. */
  lemma AnsweredExactly(request: Json, tools: Tools)
    ensures ResponseIds(Handle(request, tools)) == Owed(request)
    ensures !Unanswered(request) ==> |Handle(request, tools)| == 1
  {
    hide Response, Error, Dispatch, LIST_CHANGED, Unanswered;
    ReplyIsResponse(request, tools);
    ListChangedIsNoResponse();
    match Dispatch(request, tools)
    case Reply(response) =>
      OneMessage(response);
    case Silence(written) =>
      OneMessage(LIST_CHANGED);
    case Raised(exception) =>
      var message := if exception.Described? then "internal error: " + exception.what else "internal error";
      ErrorIsResponse(request.Get("id"), INTERNAL_ERROR, message);
      OneMessage(Error(request.Get("id"), INTERNAL_ERROR, message));
  }

  // ----- What the answers say -----

  predicate Asks(request: Json, name: string) {
    WellFormed(request) && request.Has("id") && request.Get("method").s == name
  }

  /** The one message is a response with this id and this result. */
  predicate Succeeds(messages: seq<Json>, id: Json, result: Json) {
    |messages| == 1 && Response(messages[0]) && messages[0].Get("id") == id
    && messages[0].Has("result") && messages[0].Get("result") == result
  }

  /** The one message is a response with this id and an error of this code and text. */
  predicate Fails(messages: seq<Json>, id: Json, code: int, message: string) {
    |messages| == 1 && Response(messages[0]) && messages[0].Get("id") == id && messages[0].Has("error")
    && messages[0].Get("error").Get("code") == Number(code)
    && messages[0].Get("error").Get("message") == Text(message)
  }

  /** The one message says that the server failed, and what it was if the exception says it. */
  predicate FailsInside(messages: seq<Json>, id: Json, exception: Exception) {
    Fails(messages, id, -32603, if exception.Described? then "internal error: " + exception.what else "internal error")
  }

  lemma ResultSucceeds(id: Json, result: Json)
    ensures Succeeds([Result(id, result)], id, result)
  {
  }

  lemma ErrorFails(id: Json, code: int, message: string)
    ensures Fails([Error(id, code, message)], id, code, message)
  {
  }

  /** What is no request at all is answered as invalid, except that a version of another type is an internal error. */
  lemma MalformedAnswer(request: Json, tools: Tools)
    requires !WellFormed(request)
    ensures var id, answer := request.Get("id"), Handle(request, tools);
      if request.Has("jsonrpc") && !request.Get("jsonrpc").Text?
      then exists exception :: FailsInside(answer, id, exception)
      else Fails(answer, id, -32600, "Invalid Request")
  {
    hide Error, Fails;
    ErrorFails(request.Get("id"), -32603, "internal error: " + "type must be string");
    assert request.Has("jsonrpc") && !request.Get("jsonrpc").Text? ==>
      FailsInside(Handle(request, tools), request.Get("id"), Described("type must be string"));
    ErrorFails(request.Get("id"), -32600, "Invalid Request");
  }

  /** A call that names a tool, with arguments, if any, in an object. */
  predicate GoodCall(params: Json) {
    params.Object? && params.Get("name").Text? && (params.Has("arguments") ==> params.Get("arguments").Object?)
  }

  lemma RepliesAreWritten(request: Json, tools: Tools)
    ensures var outcome := Dispatch(request, tools);
      outcome.Reply? ==> Handle(request, tools) == [outcome.response]
  {
    hide Dispatch;
  }

  /** A call that is not good is answered as one with invalid parameters, and reaches no tool. */
  lemma BadCallsAreRefused(request: Json, tools: Tools)
    requires Asks(request, "tools/call") && !GoodCall(request.Get("params"))
    ensures var params := request.Get("params");
      Fails(Handle(request, tools), request.Get("id"), -32602,
            if !params.Object? then "tools/call params must be an object"
            else if !params.Get("name").Text? then "tools/call params.name must be a string"
            else "tools/call params.arguments must be an object")
  {
    hide Fails, Result, Error, ToolResult, Handle;
    var id := request.Get("id");
    RepliesAreWritten(request, tools);
    ErrorFails(id, INVALID_PARAMS, "tools/call params must be an object");
    ErrorFails(id, INVALID_PARAMS, "tools/call params.name must be a string");
    ErrorFails(id, INVALID_PARAMS, "tools/call params.arguments must be an object");
  }

  /**
   * A good call is answered with what the tool gives for this name and these arguments, none being an
   * empty object, or with the exception that it raises.
   */
  lemma ToolCallsAreAnswered(request: Json, tools: Tools)
    requires Asks(request, "tools/call") && GoodCall(request.Get("params"))
    ensures var id, params, answer := request.Get("id"), request.Get("params"), Handle(request, tools);
      match tools.call(params.Get("name").s, if params.Has("arguments") then params.Get("arguments") else Object(map[]))
      case Gives(output) => Succeeds(answer, id, ToolResult(output))
      case Raises(Described(what)) => Fails(answer, id, -32603, "tool call failed: " + what)
      case Raises(Unknown) => Fails(answer, id, -32603, "tool call failed with an unknown exception")
  {
    hide Succeeds, Fails, Result, Error, ToolResult, Handle;
    var id, params := request.Get("id"), request.Get("params");
    RepliesAreWritten(request, tools);
    ErrorFails(id, INTERNAL_ERROR, "tool call failed with an unknown exception");
    match tools.call(params.Get("name").s, Arguments(params))
    case Gives(output) => ResultSucceeds(id, ToolResult(output));
    case Raises(Described(what)) => ErrorFails(id, INTERNAL_ERROR, "tool call failed: " + what);
    case Raises(Unknown) =>
  }

  /** The client finds the tool's text, whether it is an error, and the structured content if there is any. */
  lemma ToolResultSays(output: ToolOutput)
    ensures var result := ToolResult(output);
      && result.Get("content").Array? && |result.Get("content").items| == 1
      && result.Get("content").items[0].Get("type") == Text("text")
      && result.Get("content").items[0].Get("text") == Text(output.text)
      && (result.Get("isError") == Bool(true) <==> output.isError) && (result.Has("isError") <==> output.isError)
      && result.Get("structuredContent") == output.structured
      && (result.Has("structuredContent") <==> output.structured != Null)
  {
  }

  /** A resource is answered with its contents, or with the reason why it cannot be read. */
  lemma ResourcesAreRead(request: Json, tools: Tools)
    requires Asks(request, "resources/read")
    ensures var id, params, answer := request.Get("id"), request.Get("params"), Handle(request, tools);
      if !params.Object? then Fails(answer, id, -32602, "resources/read params must be an object")
      else if !params.Get("uri").Text? then Fails(answer, id, -32602, "resources/read params.uri must be a string")
      else
        match tools.resource(params.Get("uri").s)
        case Gives(Contents(value)) => Succeeds(answer, id, value)
        case Gives(Unreadable(error)) => Fails(answer, id, -32002, error)
        case Raises(exception) => FailsInside(answer, id, exception)
  {
    hide Succeeds, Fails, Result, Error, Handle;
    var id, params := request.Get("id"), request.Get("params");
    RepliesAreWritten(request, tools);
    ErrorFails(id, INVALID_PARAMS, "resources/read params must be an object");
    ErrorFails(id, INVALID_PARAMS, "resources/read params.uri must be a string");
    if params.Object? && params.Get("uri").Text? {
      match tools.resource(params.Get("uri").s)
      case Gives(Contents(value)) => ResultSucceeds(id, value);
      case Gives(Unreadable(error)) => ErrorFails(id, RESOURCE_ERROR, error);
      case Raises(exception) =>
        assert Dispatch(request, tools) == Raised(exception);
        RaisedIsInternal(request, tools);
    }
  }

  lemma RaisedIsInternal(request: Json, tools: Tools)
    requires Dispatch(request, tools).Raised?
    ensures FailsInside(Handle(request, tools), request.Get("id"), Dispatch(request, tools).exception)
  {
    hide Dispatch, Error, Fails;
    var exception := Dispatch(request, tools).exception;
    ErrorFails(request.Get("id"), INTERNAL_ERROR, "internal error");
    if exception.Described? {
      ErrorFails(request.Get("id"), INTERNAL_ERROR, "internal error: " + exception.what);
    }
  }

  lemma ListingIsAnswered(request: Json, tools: Tools, key: string, listing: Attempt<Json>)
    requires Dispatch(request, tools) == Listed(request.Get("id"), key, listing)
    ensures var id, answer := request.Get("id"), Handle(request, tools);
      match listing
      case Gives(value) => Succeeds(answer, id, Object(map[key := value]))
      case Raises(exception) => FailsInside(answer, id, exception)
  {
    hide Succeeds, FailsInside, Result, Error, Dispatch;
    match listing
    case Gives(value) => ResultSucceeds(request.Get("id"), Member(key, value));
    case Raises(_) => RaisedIsInternal(request, tools);
  }

  /** Tools and resources are listed under their own names. */
  lemma ListingsAreAnswered(request: Json, tools: Tools)
    ensures var id, answer := request.Get("id"), Handle(request, tools);
      && (Asks(request, "tools/list") ==>
            match tools.toolList
            case Gives(value) => Succeeds(answer, id, Object(map["tools" := value]))
            case Raises(exception) => FailsInside(answer, id, exception))
      && (Asks(request, "resources/list") ==>
            match tools.resourceList
            case Gives(value) => Succeeds(answer, id, Object(map["resources" := value]))
            case Raises(exception) => FailsInside(answer, id, exception))
  {
    hide Handle, Succeeds, FailsInside, Result, Error;
    if Asks(request, "tools/list") {
      ListingIsAnswered(request, tools, "tools", tools.toolList);
    }
    if Asks(request, "resources/list") {
      ListingIsAnswered(request, tools, "resources", tools.resourceList);
    }
  }

  /** The handshake names protocol, server and capabilities; a ping is answered with nothing. */
  lemma HandshakeIsAnswered(request: Json, tools: Tools)
    ensures var id, answer := request.Get("id"), Handle(request, tools);
      && (Asks(request, "ping") ==> Succeeds(answer, id, Object(map[])))
      && (Asks(request, "initialize") ==>
            var result := INITIALIZE_RESULT;
            && Succeeds(answer, id, result)
            && result.Get("protocolVersion") == Text("2024-11-05")
            && result.Get("serverInfo").Get("name") == Text("JohnJuliaMCP")
            && result.Get("serverInfo").Get("version") == Text("0.1.0")
            && result.Get("capabilities").Get("tools").Get("listChanged") == Bool(true)
            && result.Get("capabilities").Get("resources").Get("listChanged") == Bool(false))
  {
    hide Succeeds, Result;
    forall result { ResultSucceeds(request.Get("id"), result); }
  }

  /** The methods of requests that the server knows. */
  const METHODS := {"initialize", "ping", "tools/list", "resources/list", "resources/read", "tools/call"}

  lemma OtherMethodsAreUnknown(request: Json, tools: Tools)
    requires WellFormed(request) && request.Has("id")
    requires request.Get("method").s !in METHODS && request.Get("method").s != "notifications/initialized"
    ensures Fails(Handle(request, tools), request.Get("id"), -32601, "Method not found")
  {
    hide Fails, Error;
    ErrorFails(request.Get("id"), -32601, "Method not found");
  }

  /** Notifications are not answered; a client that has initialized is told to fetch the tools again. */
  lemma NotificationsAreNotAnswered(request: Json, tools: Tools)
    requires WellFormed(request)
    ensures request.Get("method").s == "notifications/initialized" ==>
      var written := Handle(request, tools);
      && |written| == 1 && written[0].Get("method") == Text("notifications/tools/list_changed")
      && written[0].Get("jsonrpc") == Text("2.0") && !written[0].Has("id")
    ensures request.Get("method").s != "notifications/initialized" && !request.Has("id") ==>
      Handle(request, tools) == []
  {
  }
}
