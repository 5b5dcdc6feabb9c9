/** The `ruby-shell` server (server_cli_execute/server.rb): one tool,
    `shell_exec`, that runs a command under `script` and `zsh -l`, streams
    its output as `tool/output` notifications and answers with the whole
    output.

    What the host does (create the temp file, change directory, spawn the
    child, report whether the temp file is readable afterwards) is a
    `Host` value given with each line. */
module ShellServer {
  import opened RubyValues
  import opened JsonRpc
  import opened OutputRelay

  const ToolName: string := "shell_exec"
  const RootDir: string := "/home/akanswal/co/manage"
  const ServerName: string := "ruby-shell"
  const UnknownCallId: string := "unknown"

  /** `last_pos = 0`: the position the final read seeks to. Nothing in
      the source assigns it again. */
  const LastPos: nat := 0

  /** The host as one `tools/call` sees it. `spawn` is `Open3.popen3` of the
      argv inside `Dir.chdir(cwd)`; when it succeeds it yields what the
      child writes to the temp file and what the reader observes. */
  datatype Host = Host(
    tempfile: Attempt<string>,
    chdir: string -> Attempt<()>,
    spawn: (string, seq<string>) -> Attempt<Env>,
    readableAfterExit: bool)

  /** The descriptor `tools/list` returns. */
  function ShellTool(): (r: Json)
    ensures r.JObj? && Get(r.members, "name") == JStr(ToolName)
    ensures var schema := Get(r.members, "inputSchema");
      schema.JObj? &&
      Get(schema.members, "type") == JStr("object") &&
      Get(schema.members, "required") == JArr([JStr("cmd")]) &&
      Get(schema.members, "additionalProperties") == JBool(false)
  {
    var cmdSchema := JObj([Member("type", JStr("string")), Member("description", JStr("Command to run"))]);
    var cwdSchema := JObj([Member("type", JStr("string")), Member("description", JStr("Working directory")),
                           Member("default", JStr(RootDir))]);
    var schemaMembers := [
      Member("type", JStr("object")),
      Member("properties", JObj([Member("cmd", cmdSchema), Member("cwd", cwdSchema)])),
      Member("required", JArr([JStr("cmd")])),
      Member("additionalProperties", JBool(false))
    ];
    var members := [
      Member("name", JStr(ToolName)),
      Member("description", JStr("Run shell commands with live output (TTY-emulated)")),
      Member("inputSchema", JObj(schemaMembers))
    ];
    GetAt(schemaMembers, 0, "type");
    GetAt(schemaMembers, 2, "required");
    GetAt(schemaMembers, 3, "additionalProperties");
    GetAt(members, 0, "name");
    GetAt(members, 2, "inputSchema");
    JObj(members)
  }

  /** The schema's properties: `cmd` is a string and `cwd` defaults to the
      fixed working root. */
  lemma ShellToolProperties()
    ensures var schema := Get(ShellTool().members, "inputSchema");
      schema.JObj? &&
      var props := Get(schema.members, "properties");
      props.JObj? && Get(props.members, "cwd").JObj? && Get(props.members, "cmd").JObj? &&
      Get(Get(props.members, "cwd").members, "default") == JStr(RootDir) &&
      Get(Get(props.members, "cmd").members, "type") == JStr("string")
  {
    var schema := Get(ShellTool().members, "inputSchema");
    GetAt(schema.members, 1, "properties");
    var props := Get(schema.members, "properties");
    GetAt(props.members, 0, "cmd");
    GetAt(props.members, 1, "cwd");
    GetAt(Get(props.members, "cmd").members, 0, "type");
    GetAt(Get(props.members, "cwd").members, 2, "default");
  }

  function ToolsListResult(): (r: Json)
    ensures r.JObj? && Get(r.members, "tools") == JArr([ShellTool()])
  {
    JObj([Member("tools", JArr([ShellTool()]))])
  }

  /** The arguments of a call once read: `cmd` and `cwd` as strings, and
      `call_id` as given (it is not converted to a string). */
  datatype Arguments = Arguments(cmd: string, cwd: string, callId: Json)

  /** `cwd = (args[:cwd] || args['cwd']).to_s; cwd.empty? ? ROOT_DIR : cwd`:
      the root exactly when the string form is empty, the string form
      unchanged otherwise (so a blank `cwd` is kept, not defaulted). */
  function ReadCwd(given: Json): (cwd: string)
    ensures !Truthy(given) || given == JStr("") ==> cwd == RootDir
    ensures Truthy(given) && given != JStr("") ==> cwd == StringForm(given) && cwd != ""
    ensures given.JStr? && given.s != "" ==> cwd == given.s
  {
    var s := StringForm(given);
    if s == "" then RootDir else s
  }

  /** `args[:call_id] || args['call_id'] || 'unknown'`: kept as given, not
      converted to a string. */
  function ReadCallId(given: Json): (callId: Json)
    ensures Truthy(given) ==> callId == given
    ensures !Truthy(given) ==> callId == JStr(UnknownCallId)
  {
    Or(Or(given, JNull), JStr(UnknownCallId))
  }

  /** Lines 69-71 and 86: indexing anything but a Hash raises. */
  function Normalize(args: Json): (r: Result<Arguments>)
    ensures r.Ok? <==> args.JObj?
    ensures args == JNull ==> r == Fail(IndexOnNil("cmd"))
    ensures r.Ok? ==> r.value == Arguments(StrippedForm(Get(args.members, "cmd")),
                                           ReadCwd(Get(args.members, "cwd")),
                                           ReadCallId(Get(args.members, "call_id")))
  {
    match Index(args, "cmd")
    case Fail(f) => Fail(f)
    case Ok(givenCmd) =>
      var ms := args.members;
      Ok(Arguments(StrippedForm(givenCmd), ReadCwd(Get(ms, "cwd")), ReadCallId(Get(ms, "call_id"))))
  }

  /** The number of double quotes in a string. */
  function Quotes(s: string): nat {
    if s == [] then 0 else (if s[0] == '"' then 1 else 0) + Quotes(s[1..])
  }

  /** `cmd.gsub('"', '\"')`: each double quote becomes backslash-quote. */
  function Escape(s: string): string {
    if s == [] then [] else (if s[0] == '"' then "\\\"" else [s[0]]) + Escape(s[1..])
  }

  /** The inverse reading: backslash-quote becomes a double quote. */
  function Unescape(t: string): string {
    if |t| >= 2 && t[0] == '\\' && t[1] == '"' then "\"" + Unescape(t[2..])
    else if t == [] then []
    else [t[0]] + Unescape(t[1..])
  }

  /** Escaping adds exactly one character per double quote. */
  lemma {:induction false} EscapeLength(s: string)
    ensures |Escape(s)| == |s| + Quotes(s)
  {
    if s != [] {
      EscapeLength(s[1..]);
    }
  }

  /** Escaping works character by character: it changes nothing but the
      quotes, wherever a string is cut. */
  lemma {:induction false} EscapeAppend(a: string, b: string)
    ensures Escape(a + b) == Escape(a) + Escape(b)
  {
    if a == [] {
      assert a + b == b;
    } else {
      assert (a + b)[0] == a[0] && (a + b)[1..] == a[1..] + b;
      EscapeAppend(a[1..], b);
    }
  }

  /** A string without quotes is left as it is. */
  lemma {:induction false} EscapeWithoutQuotes(s: string)
    requires forall i :: 0 <= i < |s| ==> s[i] != '"'
    ensures Escape(s) == s
  {
    if s != [] {
      EscapeWithoutQuotes(s[1..]);
    }
  }

  /** Every double quote in the escaped string follows a backslash. */
  lemma {:induction false} EscapedQuotesFollowBackslash(s: string)
    ensures var t := Escape(s); forall i :: 0 <= i < |t| && t[i] == '"' ==> 0 < i && t[i - 1] == '\\'
  {
    if s != [] {
      EscapedQuotesFollowBackslash(s[1..]);
      var head := if s[0] == '"' then "\\\"" else [s[0]];
      var t := Escape(s);
      forall i | 0 <= i < |t| && t[i] == '"' ensures 0 < i && t[i - 1] == '\\' {
        if i >= |head| {
          assert t[i] == Escape(s[1..])[i - |head|];
          if i - |head| > 0 {
            assert t[i - 1] == Escape(s[1..])[i - |head| - 1];
          }
        }
      }
    }
  }

  lemma {:induction false} EscapeDoesNotStartWithQuote(s: string)
    ensures Escape(s) == [] || Escape(s)[0] != '"'
  {
  }

  /** Unescaping undoes escaping, so no command is lost or altered by it. */
  lemma {:induction false} UnescapeEscape(s: string)
    ensures Unescape(Escape(s)) == s
  {
    if s != [] {
      var rest := Escape(s[1..]);
      UnescapeEscape(s[1..]);
      if s[0] == '"' {
        assert Escape(s) == "\\\"" + rest;
        assert Escape(s)[2..] == rest;
      } else {
        assert Escape(s) == [s[0]] + rest;
        EscapeDoesNotStartWithQuote(s[1..]);
        assert Escape(s)[1..] == rest;
      }
    }
  }

  const ShellPrefix: string := "zsh -l -c \""

  /** `['script', '-qfc', "zsh -l -c \"#{escaped_cmd}\"", tmp_path]` */
  function ScriptArgv(cmd: string, tmpPath: string): (argv: seq<string>)
  {
    ["script", "-qfc", ShellPrefix + Escape(cmd) + "\"", tmpPath]
  }

  /** The argv runs `script` quietly, flushing to the temp file, on a
      command string that is the login shell's `-c` with the escaped
      command in double quotes; unescaping its quoted part gives the
      command back. */
  lemma {:induction false} ScriptArgvCarriesCommand(cmd: string, tmpPath: string)
    ensures var argv := ScriptArgv(cmd, tmpPath);
      var line := argv[2];
      |argv| == 4 && argv[0] == "script" && argv[1] == "-qfc" && argv[3] == tmpPath &&
      |line| == |ShellPrefix| + |cmd| + Quotes(cmd) + 1 &&
      line[..|ShellPrefix|] == ShellPrefix && line[|line| - 1] == '"' &&
      Unescape(line[|ShellPrefix|..|line| - 1]) == cmd
  {
    var line := ShellPrefix + Escape(cmd) + "\"";
    EscapeLength(cmd);
    assert line[|ShellPrefix|..|line| - 1] == Escape(cmd);
    UnescapeEscape(cmd);
  }

  /** `stdout_all << "Command failed: #{e.message}\n"` on the empty buffer. */
  function FailureText(message: string): string {
    "Command failed: " + message + "\n"
  }

  /** What a call produced: the chunks it sent and the text of its answer. */
  datatype Execution = Execution(sent: seq<seq<byte>>, text: string)

  /** Lines 72-152: temp file, `chdir`, spawn, relay, final read; any
      exception on the way is folded into the text. */
  function Execute(a: Arguments, host: Host): Execution {
    match host.tempfile
    case Raised(m) => Execution([], FailureText(m))
    case Done(tmpPath) =>
      match host.chdir(a.cwd)
      case Raised(m) => Execution([], FailureText(m))
      case Done(_) =>
        match host.spawn(a.cwd, ScriptArgv(a.cmd, tmpPath))
        case Raised(m) => Execution([], FailureText(m))
        case Done(env) =>
          var chunks := RelayChunks(env);
          var final := FinalRead(host.readableAfterExit, env.out, LastPos, Concat(chunks));
          Execution(chunks + final.sent, Text(final.stdoutAll))
  }

  /** `notify('tool/output', { call_id: call_id, chunk: chunk })` */
  function OutputNotification(callId: Json, chunk: seq<byte>): Message {
    Notification("tool/output", JObj([Member("call_id", callId), Member("chunk", JStr(Text(chunk)))]))
  }

  function Notifications(callId: Json, chunks: seq<seq<byte>>): (r: seq<Message>)
    ensures |r| == |chunks|
    ensures forall i :: 0 <= i < |r| ==> r[i] == OutputNotification(callId, chunks[i])
  {
    if chunks == [] then [] else Notifications(callId, chunks[..|chunks| - 1]) + [OutputNotification(callId, chunks[|chunks| - 1])]
  }

  /** What a client reassembles from `tool/output` notifications: their
      chunks, concatenated in order. */
  function Streamed(msgs: seq<Message>): string {
    if msgs == [] then ""
    else
      var m := msgs[|msgs| - 1];
      var chunk := if m.Notification? && m.params.JObj? then Get(m.params.members, "chunk") else JNull;
      Streamed(msgs[..|msgs| - 1]) + (if chunk.JStr? then chunk.s else "")
  }

  lemma {:induction false} StreamedNotifications(callId: Json, chunks: seq<seq<byte>>)
    ensures Streamed(Notifications(callId, chunks)) == Text(Concat(chunks))
    decreases |chunks|
  {
    if chunks != [] {
      var n := |chunks| - 1;
      var ms := Notifications(callId, chunks);
      assert ms[..n] == Notifications(callId, chunks[..n]);
      StreamedNotifications(callId, chunks[..n]);
      TextAppend(Concat(chunks[..n]), chunks[n]);
    }
  }

  /** `{ content: [{ type: 'text', text: stdout_all }], isError: false }` */
  function ToolResult(text: string): (r: Json)
    ensures r.JObj? && Get(r.members, "isError") == JBool(false)
    ensures Get(r.members, "content") == JArr([JObj([Member("type", JStr("text")), Member("text", JStr(text))])])
  {
    JObj([
      Member("content", JArr([JObj([Member("type", JStr("text")), Member("text", JStr(text))])])),
      Member("isError", JBool(false))
    ])
  }

  /** `when 'call', 'tools/call'` */
  function HandleCall(req: Request, host: Host): Result<seq<Message>> {
    match DigFrom(req.params, "arguments")
    case Fail(f) => Fail(f)
    case Ok(args) =>
      match Normalize(args)
      case Fail(f) => Fail(f)
      case Ok(a) =>
        var x := Execute(a, host);
        Ok(Notifications(a.callId, x.sent) + [Reply(req.id, ToolResult(x.text))])
  }

  /** The `case meth` dispatch; an unrecognised method writes nothing. */
  function Dispatch(req: Request, host: Host): Result<seq<Message>> {
    if IsMethod(req, "initialize") then HandleInitialize(req, ServerName)
    else if IsMethod(req, "tools/list") then Ok([Reply(req.id, ToolsListResult())])
    else if IsMethod(req, "call") || IsMethod(req, "tools/call") then HandleCall(req, host)
    else Ok([])
  }

  /** The body of `STDIN.each_line`: everything written for one line. */
  function HandleLine(line: Line, host: Host): seq<Message> {
    match Admit(line)
    case None => []
    case Some(req) => Rescued(req.id, Dispatch(req, host))
  }

  /** An unreadable line (the server ends on it), a blank line, a line
      that does not parse or is not an object, and a request without an
      `id` (a notification) get no output at all, whatever their method. */
  lemma SilentLines(line: Line, host: Host)
    requires line.Unreadable? || Strip(line.raw) == "" || line.decoded.None? || !line.decoded.value.JObj? ||
             Get(line.decoded.value.members, "id") == JNull
    ensures HandleLine(line, host) == []
  {
  }

  /** A method the server does not know gets no output. */
  lemma UnknownMethodSilent(req: Request, host: Host)
    requires !IsMethod(req, "initialize") && !IsMethod(req, "tools/list") && !IsMethod(req, "call") && !IsMethod(req, "tools/call")
    ensures Dispatch(req, host) == Ok([])
  {
  }

  /** `initialize` answers with one result echoing the requested protocol
      version (or the default when it is nil or false) and naming
      `ruby-shell` 0.4.3; `params` that `dig` cannot enter raise. */
  lemma InitializeAnswer(req: Request, host: Host)
    requires IsMethod(req, "initialize")
    ensures var asked := if req.params.JObj? then Get(req.params.members, "protocolVersion") else JNull;
      Dispatch(req, host) ==
        if req.params == JNull || req.params.JObj? then
          Ok([Reply(req.id, InitializeResult(ServerName, if Truthy(asked) then asked else JStr(DefaultProtocolVersion)))])
        else Fail(DigOnNonHash(req.params))
  {
  }

  /** `tools/list` answers with the one-tool registry, whatever its params. */
  lemma ToolsListAnswer(req: Request, host: Host)
    requires IsMethod(req, "tools/list")
    ensures Dispatch(req, host) == Ok([Reply(req.id, ToolsListResult())])
  {
  }

  predicate IsCall(req: Request) {
    IsMethod(req, "call") || IsMethod(req, "tools/call")
  }

  /** A call whose arguments cannot be read raises before anything runs:
      `params` that `dig` cannot enter, `arguments` that are nil (no
      `arguments` at all) or not a Hash. The line then gets an error with
      -32000 when its `id` is truthy, and nothing otherwise. */
  lemma CallWithoutArguments(req: Request, host: Host)
    requires IsCall(req) && !(req.params.JObj? && Get(req.params.members, "arguments").JObj?)
    ensures var args := if req.params.JObj? then Get(req.params.members, "arguments") else JNull;
      Dispatch(req, host) ==
        if !(req.params == JNull || req.params.JObj?) then Fail(DigOnNonHash(req.params))
        else if args == JNull then Fail(IndexOnNil("cmd"))
        else Fail(IndexOnNonHash(args))
  {
  }

  /** What a call whose arguments are a Hash writes: a notification per
      chunk sent, then one result with the execution's text. */
  lemma CallAnswer(req: Request, host: Host)
    requires IsCall(req) && req.params.JObj? && Get(req.params.members, "arguments").JObj?
    ensures var a := Normalize(Get(req.params.members, "arguments")).value;
      var x := Execute(a, host);
      Dispatch(req, host) == Ok(Notifications(a.callId, x.sent) + [Reply(req.id, ToolResult(x.text))])
  {
  }

  /** The host's steps up to the spawn, for the arguments `a`. */
  predicate Spawned(a: Arguments, host: Host) {
    host.tempfile.Done? && host.chdir(a.cwd).Done? && host.spawn(a.cwd, ScriptArgv(a.cmd, host.tempfile.value)).Done?
  }

  function SpawnedEnv(a: Arguments, host: Host): Env
    requires Spawned(a, host)
  {
    host.spawn(a.cwd, ScriptArgv(a.cmd, host.tempfile.value)).value
  }

  /** One of the temp file, the directory change or the spawn raised `message`. */
  predicate FailedWith(a: Arguments, host: Host, message: string) {
    host.tempfile == Raised(message) ||
    (host.tempfile.Done? && host.chdir(a.cwd) == Raised(message)) ||
    (host.tempfile.Done? && host.chdir(a.cwd).Done? && host.spawn(a.cwd, ScriptArgv(a.cmd, host.tempfile.value)) == Raised(message))
  }

  /** A spawned command: the chunks sent are the relay's, and the answer's
      text is what they add up to, a prefix of what the child wrote. It is
      all of it when no byte lands between the reader's last EOF check and
      its liveness check; the final read never adds the rest. */
  lemma ExecuteSpawned(a: Arguments, host: Host)
    requires Spawned(a, host)
    ensures var env := SpawnedEnv(a, host);
      var sent := Concat(RelayChunks(env));
      Execute(a, host) == Execution(RelayChunks(env), Text(sent)) &&
      sent <= env.out && Chunked(RelayChunks(env)) &&
      (Settled(env) ==> Text(sent) == Text(env.out))
  {
    var env := SpawnedEnv(a, host);
    RelayDelivers(env);
    assert RelayChunks(env) + [] == RelayChunks(env);
  }

  lemma ExecuteFailed(a: Arguments, host: Host, message: string)
    requires FailedWith(a, host, message)
    ensures Execute(a, host) == Execution([], FailureText(message))
  {
    if host.tempfile.Done? && host.chdir(a.cwd).Done? {
      assert host.spawn(a.cwd, ScriptArgv(a.cmd, host.tempfile.value)) == Raised(message);
    }
  }

  /** A call whose temp file, directory change or spawn raises still gets a
      successful answer, with no notifications before it: its text is
      "Command failed: " and the message, and `isError` is false. */
  lemma CallFailureFolded(req: Request, host: Host, message: string)
    requires IsCall(req) && req.params.JObj? && Get(req.params.members, "arguments").JObj?
    requires FailedWith(Normalize(Get(req.params.members, "arguments")).value, host, message)
    ensures Dispatch(req, host) == Ok([Reply(req.id, ToolResult(FailureText(message)))])
  {
    var a := Normalize(Get(req.params.members, "arguments")).value;
    ExecuteFailed(a, host, message);
    CallAnswer(req, host);
    var answer := [Reply(req.id, ToolResult(FailureText(message)))];
    assert Notifications(a.callId, []) + answer == answer;
  }

  /** A call that spawns: the child's output is streamed as notifications
      that carry the call's `call_id`, then the call is answered once. What
      the notifications carry, concatenated, is exactly the answer's text:
      the part of the child's output the relay read, which is a prefix of
      it, and all of it when no byte lands between the reader's last EOF
      check and its liveness check. */
  lemma CallStreamsThenAnswers(req: Request, host: Host)
    requires IsCall(req) && req.params.JObj? && Get(req.params.members, "arguments").JObj?
    requires Spawned(Normalize(Get(req.params.members, "arguments")).value, host)
    ensures var a := Normalize(Get(req.params.members, "arguments")).value;
      var env := SpawnedEnv(a, host);
      var notes := Notifications(a.callId, RelayChunks(env));
      var sent := Concat(RelayChunks(env));
      Dispatch(req, host) == Ok(notes + [Reply(req.id, ToolResult(Text(sent)))]) &&
      Streamed(notes) == Text(sent) && sent <= env.out &&
      (Settled(env) ==> Streamed(notes) == Text(env.out))
  {
    var a := Normalize(Get(req.params.members, "arguments")).value;
    CallAnswer(req, host);
    ExecuteSpawned(a, host);
    StreamedNotifications(a.callId, RelayChunks(SpawnedEnv(a, host)));
  }

  /** What the dispatch writes: notifications, then at most one result,
      which carries the request's `id`. */
  lemma DispatchShape(req: Request, host: Host)
    ensures var r := Dispatch(req, host);
      r.Ok? ==>
        (forall i :: 0 <= i < |r.value| - 1 ==> r.value[i].Notification?) &&
        (r.value != [] ==> r.value[|r.value| - 1].Reply? && r.value[|r.value| - 1].id == req.id)
  {
    if IsMethod(req, "initialize") || IsMethod(req, "tools/list") || !IsCall(req) {
    } else if req.params.JObj? && Get(req.params.members, "arguments").JObj? {
      var a := Normalize(Get(req.params.members, "arguments")).value;
      var x := Execute(a, host);
      CallAnswer(req, host);
      NotificationsThenReply(Notifications(a.callId, x.sent), Reply(req.id, ToolResult(x.text)));
    } else {
      CallWithoutArguments(req, host);
    }
  }

  lemma NotificationsThenReply(notes: seq<Message>, last: Message)
    requires forall i :: 0 <= i < |notes| ==> notes[i].Notification?
    ensures var out := notes + [last]; forall i :: 0 <= i < |out| - 1 ==> out[i].Notification?
  {
    var out := notes + [last];
    forall i | 0 <= i < |out| - 1 ensures out[i].Notification? {
      assert out[i] == notes[i];
    }
  }

  /** Every line gets at most one response, after all its notifications,
      echoing its `id`. */
  lemma ShellAnswersOnce(line: Line, host: Host)
    ensures AnswersOnce(line, HandleLine(line, host))
  {
    if Admit(line).Some? {
      DispatchShape(Admit(line).value, host);
    }
  }

  /** A whole stream gets at most one response per admitted request. */
  lemma ResponsesBounded(lines: seq<Line>, hosts: seq<Host>)
    requires |hosts| == |lines|
    ensures Responses(Transcript(lines, hosts, HandleLine)) <= Admitted(lines)
  {
    forall k | 0 <= k < |lines| ensures AnswersOnce(lines[k], HandleLine(lines[k], hosts[k])) {
      ShellAnswersOnce(lines[k], hosts[k]);
    }
    TranscriptResponses(lines, hosts, HandleLine);
  }

  /** The `STDIN.each_line` loop over a whole input stream. It handles
      lines until the stream ends or a line's `strip!` raises; `exited`
      tells which, and the lines after an unreadable one are never read. */
  method Serve(lines: seq<Line>, hosts: seq<Host>) returns (out: seq<Message>, exited: bool)
    requires |hosts| == |lines|
    ensures out == Transcript(lines, hosts, HandleLine)
    ensures exited <==> exists j :: 0 <= j < |lines| && lines[j].Unreadable?
    ensures Responses(out) <= Admitted(lines)
  {
    out := [];
    var i := 0;
    while i < |lines| && lines[i].Line?
      invariant 0 <= i <= Live(lines)
      invariant out == Each(lines[..i], hosts[..i], HandleLine)
    {
      EachStep(lines, hosts, HandleLine, i);
      out := out + HandleLine(lines[i], hosts[i]);
      i := i + 1;
    }
    exited := i < |lines|;
    assert i == Live(lines);
    ResponsesBounded(lines, hosts);
  }
}
