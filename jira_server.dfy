/** The `jira_connect` server (jira-integration/main.rb): one tool that
    looks up an issue by key through `JiraService` and answers with what
    the service returns.

    The service (configuration from the environment, an HTTP GET, the
    reshaping of the response) is a `Fetch` value given with each line:
    for an issue key, the value `get_issue_by_key` returns, or the message
    of what `JiraService.new` or `get_issue_by_key` raised. */
module JiraServer {
  import opened RubyValues
  import opened JsonRpc

  const ToolName: string := "jira_connect"
  const ServerName: string := "jira_connect"

  type Fetch = string -> Attempt<Json>

  /** The descriptor `tools/list` returns. */
  function JiraTool(): (r: Json)
    ensures r.JObj? && Get(r.members, "name") == JStr(ToolName)
    ensures var schema := Get(r.members, "inputSchema");
      schema.JObj? &&
      Get(schema.members, "type") == JStr("object") &&
      Get(schema.members, "required") == JArr([JStr("issue_key")]) &&
      Get(schema.members, "additionalProperties") == JBool(false)
  {
    var keySchema := JObj([Member("type", JStr("string")), Member("description", JStr("Jira issue key"))]);
    var schemaMembers := [
      Member("type", JStr("object")),
      Member("properties", JObj([Member("issue_key", keySchema)])),
      Member("required", JArr([JStr("issue_key")])),
      Member("additionalProperties", JBool(false))
    ];
    var members := [
      Member("name", JStr(ToolName)),
      Member("description", JStr("Get JIRA issue details by key")),
      Member("inputSchema", JObj(schemaMembers))
    ];
    GetAt(schemaMembers, 0, "type");
    GetAt(schemaMembers, 2, "required");
    GetAt(schemaMembers, 3, "additionalProperties");
    GetAt(members, 0, "name");
    GetAt(members, 2, "inputSchema");
    JObj(members)
  }

  function ToolsListResult(): (r: Json)
    ensures r.JObj? && Get(r.members, "tools") == JArr([JiraTool()])
  {
    JObj([Member("tools", JArr([JiraTool()]))])
  }

  /** `{ content: issue, isError: false }` */
  function CallResult(issue: Json): (r: Json)
    ensures r.JObj? && Get(r.members, "content") == issue && Get(r.members, "isError") == JBool(false)
  {
    var members := [Member("content", issue), Member("isError", JBool(false))];
    GetAt(members, 0, "content");
    JObj(members)
  }

  /** `handle_call(id, args)`. On a fetch that raises, the `rescue` builds
      its message and then appends it to `stdout_all`, a name this method
      never defines: that raises `NameError`, which leaves the method with
      the fetch's own message lost. */
  function HandleCall(id: Json, args: Json, fetch: Fetch): (r: Result<seq<Message>>)
    ensures r.Ok? <==> args.JObj? && fetch(StrippedForm(Get(args.members, "issue_key"))).Done?
    ensures r.Ok? ==>
      r.value == [Reply(id, CallResult(fetch(StrippedForm(Get(args.members, "issue_key"))).value))]
    ensures args.JObj? && r.Fail? ==> r.fault == UndefinedName("stdout_all")
    ensures args == JNull ==> r == Fail(IndexOnNil("issue_key"))
  {
    match Index(args, "issue_key")
    case Fail(f) => Fail(f)
    case Ok(given) =>
      match fetch(StrippedForm(given))
      case Done(issue) => Ok([Reply(id, CallResult(issue))])
      case Raised(_) => Fail(UndefinedName("stdout_all"))
  }

  predicate IsCall(req: Request) {
    IsMethod(req, "call") || IsMethod(req, "tools/call")
  }

  /** The `case meth` dispatch; an unrecognised method writes nothing. */
  function Dispatch(req: Request, fetch: Fetch): Result<seq<Message>> {
    if IsMethod(req, "initialize") then HandleInitialize(req, ServerName)
    else if IsMethod(req, "tools/list") then Ok([Reply(req.id, ToolsListResult())])
    else if IsCall(req) then
      match DigFrom(req.params, "arguments")
      case Fail(f) => Fail(f)
      case Ok(args) => HandleCall(req.id, args, fetch)
    else Ok([])
  }

  /** The body of `STDIN.each_line`: everything written for one line. */
  function HandleLine(line: Line, fetch: Fetch): seq<Message> {
    match Admit(line)
    case None => []
    case Some(req) => Rescued(req.id, Dispatch(req, fetch))
  }

  /** Blank, unparsable and non-object lines and requests without an `id`
      get no output, whatever their method. */
  lemma SilentLines(line: Line, fetch: Fetch)
    requires line.Unreadable? || Strip(line.raw) == "" || line.decoded.None? || !line.decoded.value.JObj? ||
             Get(line.decoded.value.members, "id") == JNull
    ensures HandleLine(line, fetch) == []
  {
  }

  /** A method the server does not know gets no output. */
  lemma UnknownMethodSilent(req: Request, fetch: Fetch)
    requires !IsMethod(req, "initialize") && !IsMethod(req, "tools/list") && !IsCall(req)
    ensures Dispatch(req, fetch) == Ok([])
  {
  }

  /** `initialize` answers with one result echoing the requested protocol
      version (or the default when it is nil or false) and naming
      `jira_connect` 0.4.3; `params` that `dig` cannot enter raise. */
  lemma InitializeAnswer(req: Request, fetch: Fetch)
    requires IsMethod(req, "initialize")
    ensures var asked := if req.params.JObj? then Get(req.params.members, "protocolVersion") else JNull;
      Dispatch(req, fetch) ==
        if req.params == JNull || req.params.JObj? then
          Ok([Reply(req.id, InitializeResult(ServerName, if Truthy(asked) then asked else JStr(DefaultProtocolVersion)))])
        else Fail(DigOnNonHash(req.params))
  {
  }

  /** `tools/list` answers with the one-tool registry, whatever its params. */
  lemma ToolsListAnswer(req: Request, fetch: Fetch)
    requires IsMethod(req, "tools/list")
    ensures Dispatch(req, fetch) == Ok([Reply(req.id, ToolsListResult())])
  {
  }

  /** A call with a Hash of arguments asks the service for the stripped
      string form of `issue_key`. When the service answers, the line gets
      one result whose content is exactly what it returned; when it
      raises, the handler raises the `NameError`, whatever the service's
      message, and the line gets -32000 for it (or nothing, for a falsy
      `id`, by `JsonRpc.Rescued`). */
  lemma CallAnswer(req: Request, fetch: Fetch)
    requires IsCall(req) && req.params.JObj? && Get(req.params.members, "arguments").JObj?
    ensures var args := Get(req.params.members, "arguments");
      var outcome := fetch(StrippedForm(Get(args.members, "issue_key")));
      Dispatch(req, fetch) ==
        if outcome.Done? then Ok([Reply(req.id, CallResult(outcome.value))])
        else Fail(UndefinedName("stdout_all"))
  {
    assert Dispatch(req, fetch) == HandleCall(req.id, Get(req.params.members, "arguments"), fetch);
  }

  /** Nil `arguments` (none given), or `params` that are not a Hash, raise
      before the service is asked. */
  lemma CallWithoutArguments(req: Request, fetch: Fetch)
    requires IsCall(req) && !(req.params.JObj? && Get(req.params.members, "arguments").JObj?)
    ensures var args := if req.params.JObj? then Get(req.params.members, "arguments") else JNull;
      Dispatch(req, fetch) ==
        if !(req.params == JNull || req.params.JObj?) then Fail(DigOnNonHash(req.params))
        else if args == JNull then Fail(IndexOnNil("issue_key"))
        else Fail(IndexOnNonHash(args))
  {
  }

  /** What the dispatch writes: at most one result, carrying the request's
      `id`; this server sends no notifications. */
  lemma DispatchShape(req: Request, fetch: Fetch)
    ensures var r := Dispatch(req, fetch);
      r.Ok? ==> |r.value| <= 1 && (r.value != [] ==> r.value[0].Reply? && r.value[0].id == req.id)
  {
    if IsMethod(req, "initialize") || IsMethod(req, "tools/list") || !IsCall(req) {
    } else if req.params.JObj? && Get(req.params.members, "arguments").JObj? {
      CallAnswer(req, fetch);
    } else {
      CallWithoutArguments(req, fetch);
    }
  }

  /** Every line gets at most one response, echoing its `id`. */
  lemma JiraAnswersOnce(line: Line, fetch: Fetch)
    ensures AnswersOnce(line, HandleLine(line, fetch))
    ensures |HandleLine(line, fetch)| <= 1
  {
    if Admit(line).Some? {
      DispatchShape(Admit(line).value, fetch);
    }
  }

  /** A whole stream gets at most one response per admitted request. */
  lemma ResponsesBounded(lines: seq<Line>, fetches: seq<Fetch>)
    requires |fetches| == |lines|
    ensures Responses(Transcript(lines, fetches, HandleLine)) <= Admitted(lines)
  {
    forall k | 0 <= k < |lines| ensures AnswersOnce(lines[k], HandleLine(lines[k], fetches[k])) {
      JiraAnswersOnce(lines[k], fetches[k]);
    }
    TranscriptResponses(lines, fetches, HandleLine);
  }

  /** The `STDIN.each_line` loop over a whole input stream. It handles
      lines until the stream ends or a line's `strip!` raises; `exited`
      tells which, and the lines after an unreadable one are never read. */
  method Serve(lines: seq<Line>, fetches: seq<Fetch>) returns (out: seq<Message>, exited: bool)
    requires |fetches| == |lines|
    ensures out == Transcript(lines, fetches, HandleLine)
    ensures exited <==> exists j :: 0 <= j < |lines| && lines[j].Unreadable?
    ensures Responses(out) <= Admitted(lines)
  {
    out := [];
    var i := 0;
    while i < |lines| && lines[i].Line?
      invariant 0 <= i <= Live(lines)
      invariant out == Each(lines[..i], fetches[..i], HandleLine)
    {
      EachStep(lines, fetches, HandleLine, i);
      out := out + HandleLine(lines[i], fetches[i]);
      i := i + 1;
    }
    exited := i < |lines|;
    assert i == Live(lines);
    ResponsesBounded(lines, fetches);
  }
}
