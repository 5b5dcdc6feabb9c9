/** The line-oriented JSON-RPC frame shared by both servers: what they
    write (`ok`, `err`, `notify`), how one input line is admitted as a
    request (the head of each `STDIN.each_line` block), how an exception
    escaping a handler is answered (the `rescue` at its foot), and the
    transcript of a whole input stream. */
module JsonRpc {
  import opened RubyValues

  /** The error code every escaping exception is answered with; it lies in
      the range JSON-RPC 2.0 (section 5.1) leaves to server implementations. */
  const ServerError: int := -32000

  const DefaultProtocolVersion: string := "2025-06-18"
  const ServerVersion: string := "0.4.3"

  /** One line written to standard output, each tagged `jsonrpc: '2.0'`:
      `ok(id, res)`, `err(id, code, message)` and `notify(method, params)`. */
  datatype Message =
    | Reply(id: Json, result: Json)
    | ErrorReply(id: Json, code: int, message: Fault)
    | Notification(meth: string, params: Json)

  /** One line read from standard input: its raw text and what
      `JSON.parse` makes of the stripped text (`None` when it raises), or a
      line holding bytes that are invalid in the external encoding. On such
      a line `line.strip!` raises before the `begin`, so nothing rescues
      it and the server ends there. */
  datatype Line = Line(raw: string, decoded: Option<Json>) | Unreadable

  /** A request that reached the `case meth` dispatch. */
  datatype Request = Request(id: Json, meth: Json, params: Json)

  /** The head of the loop body: strip, skip blank lines, parse, read `id`
      and `method`, skip requests whose `id` is nil. A line that does not
      parse, or parses to something other than an object (so that
      `req[:id]` raises), reaches the `rescue` with `id` still nil and is
      dropped as well. */
  function Admit(line: Line): (r: Option<Request>)
    ensures r.Some? <==>
      line.Line? && Strip(line.raw) != "" && line.decoded.Some? && line.decoded.value.JObj? &&
      Get(line.decoded.value.members, "id") != JNull
    ensures r.Some? ==>
      var ms := line.decoded.value.members;
      r.value == Request(Get(ms, "id"), Get(ms, "method"), Get(ms, "params"))
  {
    if line.Unreadable? || Strip(line.raw) == "" then None
    else
      match line.decoded
      case None => None
      case Some(v) =>
        match v
        case JObj(ms) =>
          var id := Get(ms, "id");
          if id == JNull then None else Some(Request(id, Get(ms, "method"), Get(ms, "params")))
        case _ => None
  }

  /** `rescue => e; STDOUT.puts err(id, -32000, e.message) if id`: a handler
      that raised is answered with an error only when `id` is truthy (so an
      `id` of `false` gets no answer either). */
  function Rescued(id: Json, handled: Result<seq<Message>>): (out: seq<Message>)
    ensures handled.Ok? ==> out == handled.value
    ensures handled.Fail? && Truthy(id) ==> out == [ErrorReply(id, ServerError, handled.fault)]
    ensures handled.Fail? && !Truthy(id) ==> out == []
  {
    match handled
    case Ok(msgs) => msgs
    case Fail(f) => if Truthy(id) then [ErrorReply(id, ServerError, f)] else []
  }

  /** `case meth when 'initialize'`: `String#===` matches only a string. */
  predicate IsMethod(req: Request, name: string) {
    req.meth == JStr(name)
  }

  /** The result both servers give to `initialize`. */
  function InitializeResult(serverName: string, protocolVersion: Json): (r: Json)
    ensures r.JObj? && |r.members| == 3
    ensures Get(r.members, "protocolVersion") == protocolVersion
    ensures Get(r.members, "capabilities") == JObj([])
    ensures Get(r.members, "serverInfo") == JObj([Member("name", JStr(serverName)), Member("version", JStr(ServerVersion))])
  {
    var ms := [
      Member("serverInfo", JObj([Member("name", JStr(serverName)), Member("version", JStr(ServerVersion))])),
      Member("capabilities", JObj([])),
      Member("protocolVersion", protocolVersion)
    ];
    assert Get(ms, "serverInfo") == Get(ms[..2], "serverInfo");
    assert ms[..2][..1] == [ms[0]];
    assert Get(ms[..2], "serverInfo") == Get([ms[0]], "serverInfo");
    JObj(ms)
  }

  /** `initialize`: echo `params.protocolVersion`, or the default when it is
      nil or false; `dig` raises when `params` is neither nil nor a Hash. */
  function HandleInitialize(req: Request, serverName: string): (r: Result<seq<Message>>)
    ensures r.Ok? <==> (req.params == JNull || req.params.JObj?)
    ensures r.Ok? ==> |r.value| == 1 && r.value[0].Reply? && r.value[0].id == req.id
    ensures r.Ok? ==>
      var res := r.value[0].result;
      var asked := if req.params.JObj? then Get(req.params.members, "protocolVersion") else JNull;
      res.JObj? &&
      Get(res.members, "protocolVersion") == (if Truthy(asked) then asked else JStr(DefaultProtocolVersion)) &&
      Get(res.members, "serverInfo") == JObj([Member("name", JStr(serverName)), Member("version", JStr(ServerVersion))]) &&
      Get(res.members, "capabilities") == JObj([])
    ensures r.Fail? ==> r.fault == DigOnNonHash(req.params)
  {
    match DigFrom(req.params, "protocolVersion")
    case Fail(f) => Fail(f)
    case Ok(asked) =>
      Ok([Reply(req.id, InitializeResult(serverName, Or(asked, JStr(DefaultProtocolVersion))))])
  }

  /** The number of responses (results and errors) among the messages. */
  function Responses(out: seq<Message>): nat
  {
    if out == [] then 0
    else Responses(out[..|out| - 1]) + (if out[|out| - 1].Notification? then 0 else 1)
  }

  lemma {:induction false} ResponsesAppend(a: seq<Message>, b: seq<Message>)
    ensures Responses(a + b) == Responses(a) + Responses(b)
    decreases |b|
  {
    if b == [] {
      assert a + b == a;
    } else {
      assert (a + b)[..|a + b| - 1] == a + b[..|b| - 1];
      ResponsesAppend(a, b[..|b| - 1]);
    }
  }

  /** What one server answers to one line: at most one response, and only
      to an admitted request, coming after every notification and echoing
      the request's `id`. Both servers' per-line functions satisfy it. */
  predicate AnswersOnce(line: Line, out: seq<Message>) {
    (Admit(line).None? ==> out == []) &&
    (Admit(line).Some? ==>
      (forall i :: 0 <= i < |out| - 1 ==> out[i].Notification?) &&
      (out != [] && !out[|out| - 1].Notification? ==> out[|out| - 1].id == Admit(line).value.id))
  }

  lemma {:induction false} AnswersOnceCounts(line: Line, out: seq<Message>)
    requires AnswersOnce(line, out)
    ensures Responses(out) <= (if Admit(line).Some? then 1 else 0)
  {
    if out != [] {
      var init := out[..|out| - 1];
      assert forall i :: 0 <= i < |init| ==> init[i].Notification? by {
        forall i | 0 <= i < |init| ensures init[i].Notification? {
          assert init[i] == out[i];
        }
      }
      NotificationsOnly(init);
    }
  }

  lemma {:induction false} NotificationsOnly(out: seq<Message>)
    requires forall i :: 0 <= i < |out| ==> out[i].Notification?
    ensures Responses(out) == 0
    decreases |out|
  {
    if out != [] {
      NotificationsOnly(out[..|out| - 1]);
    }
  }

  /** The number of lines that reach the dispatch. */
  function Admitted(lines: seq<Line>): nat
  {
    if lines == [] then 0
    else Admitted(lines[..|lines| - 1]) + (if Admit(lines[|lines| - 1]).Some? then 1 else 0)
  }

  /** A prefix of the stream admits no more requests than the stream. */
  lemma {:induction false} AdmittedPrefix(lines: seq<Line>, n: nat)
    requires n <= |lines|
    ensures Admitted(lines[..n]) <= Admitted(lines)
    decreases |lines|
  {
    if n < |lines| {
      var m := |lines| - 1;
      assert lines[..m][..n] == lines[..n];
      AdmittedPrefix(lines[..m], n);
    } else {
      assert lines[..n] == lines;
    }
  }

  /** How many lines the loop handles before one ends the server: the
      position of the first unreadable line, or the whole stream. */
  function Live(lines: seq<Line>): (n: nat)
    ensures n <= |lines|
    ensures forall j :: 0 <= j < n ==> lines[j].Line?
    ensures n < |lines| ==> lines[n].Unreadable?
  {
    if lines == [] || lines[0].Unreadable? then 0
    else
      var n := Live(lines[1..]);
      assert forall j :: 1 <= j < 1 + n ==> lines[j] == lines[1..][j - 1];
      1 + n
  }

  /** The loop's stopping point is determined by the stream: any `n` with
      the properties above is `Live(lines)`. */
  lemma LiveUnique(lines: seq<Line>, n: nat)
    requires n <= |lines|
    requires forall j :: 0 <= j < n ==> lines[j].Line?
    requires n < |lines| ==> lines[n].Unreadable?
    ensures n == Live(lines)
  {
  }

  /** The loop stops in the first stream of two when that holds an
      unreadable line, and otherwise in the second. */
  lemma {:induction false} LiveAppend(a: seq<Line>, b: seq<Line>)
    ensures Live(a + b) == if Live(a) < |a| then Live(a) else |a| + Live(b)
  {
    var n := if Live(a) < |a| then Live(a) else |a| + Live(b);
    forall j | 0 <= j < n ensures (a + b)[j].Line? {
      if j < |a| {
        assert (a + b)[j] == a[j];
      } else {
        assert (a + b)[j] == b[j - |a|];
      }
    }
    if n < |a + b| {
      if Live(a) < |a| {
        assert (a + b)[n] == a[n];
      } else {
        assert (a + b)[n] == b[n - |a|];
      }
    }
    LiveUnique(a + b, n);
  }

  /** Everything the body of the `STDIN.each_line` loop writes for a run of
      lines, each line handled with its own view of the host (`hosts[i]`).
      The loop keeps no state from one line to the next. */
  function Each<H>(lines: seq<Line>, hosts: seq<H>, handle: (Line, H) -> seq<Message>): seq<Message>
    requires |hosts| == |lines|
  {
    if lines == [] then []
    else
      var n := |lines| - 1;
      Each(lines[..n], hosts[..n], handle) + handle(lines[n], hosts[n])
  }

  /** What the server writes for a whole input stream: the output of every
      line before the first unreadable one, and nothing after it. */
  function Transcript<H>(lines: seq<Line>, hosts: seq<H>, handle: (Line, H) -> seq<Message>): seq<Message>
    requires |hosts| == |lines|
  {
    var n := Live(lines);
    Each(lines[..n], hosts[..n], handle)
  }

  /** The output grows by one line's output at a time. */
  lemma EachStep<H>(lines: seq<Line>, hosts: seq<H>, handle: (Line, H) -> seq<Message>, i: nat)
    requires |hosts| == |lines| && i < |lines|
    ensures Each(lines[..i + 1], hosts[..i + 1], handle) ==
            Each(lines[..i], hosts[..i], handle) + handle(lines[i], hosts[i])
  {
    assert lines[..i + 1][..i] == lines[..i] && hosts[..i + 1][..i] == hosts[..i];
  }

  /** When every line is answered at most once, a run of lines gets at most
      one response per admitted request. */
  lemma {:induction false} EachResponses<H>(lines: seq<Line>, hosts: seq<H>, handle: (Line, H) -> seq<Message>)
    requires |hosts| == |lines|
    requires forall i :: 0 <= i < |lines| ==> AnswersOnce(lines[i], handle(lines[i], hosts[i]))
    ensures Responses(Each(lines, hosts, handle)) <= Admitted(lines)
    decreases |lines|
  {
    if lines != [] {
      var n := |lines| - 1;
      assert forall i :: 0 <= i < n ==> lines[..n][i] == lines[i] && hosts[..n][i] == hosts[i];
      EachResponses(lines[..n], hosts[..n], handle);
      ResponsesAppend(Each(lines[..n], hosts[..n], handle), handle(lines[n], hosts[n]));
      AnswersOnceCounts(lines[n], handle(lines[n], hosts[n]));
    }
  }

  /** When every line is answered at most once, the whole stream holds at
      most one response per admitted request: notifications never get one,
      and neither do blank or malformed lines. */
  lemma TranscriptResponses<H>(lines: seq<Line>, hosts: seq<H>, handle: (Line, H) -> seq<Message>)
    requires |hosts| == |lines|
    requires forall i :: 0 <= i < |lines| ==> AnswersOnce(lines[i], handle(lines[i], hosts[i]))
    ensures Responses(Transcript(lines, hosts, handle)) <= Admitted(lines)
  {
    var n := Live(lines);
    assert forall i :: 0 <= i < n ==> lines[..n][i] == lines[i] && hosts[..n][i] == hosts[i];
    EachResponses(lines[..n], hosts[..n], handle);
    AdmittedPrefix(lines, n);
  }

  /** Lines are handled independently: the output for two runs of lines
      one after the other is the two outputs one after the other. */
  lemma {:induction false} EachSplit<H>(a: seq<Line>, ha: seq<H>, b: seq<Line>, hb: seq<H>, handle: (Line, H) -> seq<Message>)
    requires |ha| == |a| && |hb| == |b|
    ensures Each(a + b, ha + hb, handle) == Each(a, ha, handle) + Each(b, hb, handle)
    decreases |b|
  {
    if b == [] {
      assert a + b == a && ha + hb == ha;
    } else {
      var n := |b| - 1;
      assert (a + b)[..|a + b| - 1] == a + b[..n];
      assert (ha + hb)[..|ha + hb| - 1] == ha + hb[..n];
      EachSplit(a, ha, b[..n], hb[..n], handle);
    }
  }

  /** The transcript of two streams read one after the other is the two
      transcripts one after the other, unless the first holds an unreadable
      line: the server then ends inside the first stream and the second
      gets no output at all. */
  lemma TranscriptSplit<H>(a: seq<Line>, ha: seq<H>, b: seq<Line>, hb: seq<H>, handle: (Line, H) -> seq<Message>)
    requires |ha| == |a| && |hb| == |b|
    ensures Live(a) == |a| ==> Transcript(a + b, ha + hb, handle) == Transcript(a, ha, handle) + Transcript(b, hb, handle)
    ensures Live(a) < |a| ==> Transcript(a + b, ha + hb, handle) == Transcript(a, ha, handle)
  {
    LiveAppend(a, b);
    var n := Live(a + b);
    if Live(a) < |a| {
      assert (a + b)[..n] == a[..n] && (ha + hb)[..n] == ha[..n];
    } else {
      var m := Live(b);
      assert (a + b)[..n] == a + b[..m] && (ha + hb)[..n] == ha + hb[..m];
      assert a[..|a|] == a && ha[..|a|] == ha;
      EachSplit(a, ha, b[..m], hb[..m], handle);
    }
  }
}
