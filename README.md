# Two stdio JSON-RPC tool servers, modelled in Dafny

The repository holds two small Model Context Protocol servers. Each reads
JSON-RPC requests from standard input, one per line, and writes its answers
to standard output:

- `ruby-shell` (`server_cli_execute/server.rb`) offers one tool,
  `shell_exec`. The tool runs a command under `script` and `zsh -l`. It
  streams the command's output as `tool/output` notifications, then answers
  with the output it collected.
- `jira_connect` (`jira-integration/main.rb`) offers one tool, also named
  `jira_connect`. The tool looks up an issue by its key and answers with what
  the Jira service returned.

The model has five modules:

- `RubyValues` (`ruby_values.dfy`) holds decoded JSON as Ruby sees it once
  the keys are symbolised. It covers nil and truthiness, `||`, `h[:key]`,
  `dig`, `to_s` and `String#strip`.
- `JsonRpc` (`json_rpc.dfy`) is the frame both servers share:
  - the messages `ok`, `err` and `notify`;
  - the head of the per-line loop (strip, skip blank lines, parse, read `id`
    and `method`, skip an id-less request);
  - the `rescue` that answers with -32000 (the server-error range of
    section 5.1 of JSON-RPC 2.0);
  - the transcript of a whole input stream, which ends early at a line
    `strip!` cannot read.
- `OutputRelay` (`output_relay.dfy`) is the reader thread of `tools/call`,
  run sequentially against an environment that fixes what the child writes
  and what each poll shows. A poll has two separate observations: how much
  of the output the file holds at the EOF check, and what `alive?` answers
  after it. It is a method with loops, proved
  against a specification function. It also holds the "final read" block
  that runs after the child exits.
- `ShellServer` (`shell_server.dfy`) is `server.rb`: the tool descriptor,
  argument normalisation, quote escaping and the `script` argv, the call's
  execution, the dispatch, and the `STDIN.each_line` loop as a method.
- `JiraServer` (`jira_server.dfy`) is `main.rb`: the descriptor,
  `handle_call`, the dispatch and the loop.

Outside calls are values the model is given:

- For the shell server, one `Host` per line. It says whether the temp file
  could be created and the directory changed, and what the spawn yields: a
  relay environment, or an exception's message. It also says whether the
  temp file is readable after the child exits.
- For the Jira server, one `Fetch` per line, from issue key to the issue
  value or an exception's message.

Exceptions the servers' own code raises are the `Fault` datatype. It names
which error occurred, not Ruby's exact message text.

### Quirks the model keeps as written

- **The final-read guard is always false.** The guard of the final read
  (server.rb line 134) applies `!` to the byte slice before comparing with
  `==`. It therefore compares a boolean with the string `remainder`, which
  is never equal. The block can never append to `stdout_all` or send a
  chunk (`OutputRelay.FinalReadGuard`, `OutputRelay.FinalRead`).
- **`last_pos` is never advanced.** It stays 0, which is
  `ShellServer.LastPos`.
- **The Jira rescue raises again.** When the Jira service raises, the
  `rescue` in `handle_call` appends to `stdout_all`, a name that method never
  defines. That raises `NameError`, which the outer `rescue` answers with
  -32000. So a failed fetch gets an error response, whatever the service's
  message, instead of an in-band text (`JiraServer.HandleCall`,
  `JiraServer.CallAnswer`).
- **Output can be lost at exit.** The reader checks for EOF, then asks
  whether the child is alive. If the child writes its last bytes and exits
  between the two checks, the loop breaks with those bytes unread. The
  final read cannot send them either, because its guard is always false.
  They are then missing from both the notifications and the answer
  (`OutputRelay.LateOutputLost`). The relay is proved to send a prefix of
  the output, and all of it only when no byte arrives between the two
  checks (`OutputRelay.Settled`).
- **An unreadable line ends the server.** `line.strip!` runs before the
  `begin`. On a line with bytes invalid in the input's encoding it raises
  `ArgumentError`, nothing rescues it, and the process ends. The lines
  after it get no output (`JsonRpc.Live`, `JsonRpc.TranscriptSplit`).
- **An `id` of `false` gets no answer.** Such a request passes the nil
  check, but the outer `rescue` answers only a truthy `id`. If its handler
  raises, the line gets no output at all (`JsonRpc.Rescued`).
- **A blank `cwd` is kept.** `cwd` defaults to the root only when its
  string form is empty, so a blank `cwd` such as `" "` is passed on as
  given (`ShellServer.ReadCwd`).
- **A false `cmd` reads as nil.** The keys are symbolised, so the fallback
  lookups with string keys (`args['cmd']`) always give nil. A `cmd` of
  `false` therefore reads as nil, that is as the empty command
  (`RubyValues.StrippedForm`).

## Model

| member | source | states |
|---|---|---|
| RubyValues.Index | server_cli_execute/server.rb:69 | `args[:cmd]` succeeds exactly on a Hash, gives the bound value (`RubyValues.Get`; nil when absent), and on nil raises the undefined-method error |
| RubyValues.DigFrom | server_cli_execute/server.rb:68 | `req.dig(:params, :arguments)`: succeeds exactly when `params` is nil or a Hash; nil stops the walk with nil |
| RubyValues.ToS | server_cli_execute/server.rb:70 | `to_s` is empty exactly for nil and the empty string, and a string is its own text |
| RubyValues.StringForm | server_cli_execute/server.rb:70 | the string form of an argument is empty exactly when it is nil, false or the empty string, and a string argument is its own string form |
| RubyValues.StrippedForm | server_cli_execute/server.rb:69 | `cmd` (and `issue_key`, jira-integration/main.rb line 54) is the stripped string form of the argument: trimmed, the stripped string for a string argument, and empty for nil or false |
| RubyValues.StripSplits | server_cli_execute/server.rb:69 | `strip` (`RubyValues.Strip`) gives the input with a whitespace run cut from each end, and leaves no whitespace at either end |
| RubyValues.StripOfPadded | server_cli_execute/server.rb:30 | that cut is unique: padding a trimmed string with whitespace on both sides and stripping gives the string back |
| RubyValues.StripIdempotent | server_cli_execute/server.rb:30 | stripping twice is stripping once |
| JsonRpc.Admit | server_cli_execute/server.rb:29-37 | a line reaches the dispatch exactly when it is readable, its stripped text is non-empty, it parses to an object and its `id` is not nil; the request carries that object's `id`, `method` and `params` |
| JsonRpc.Rescued | server_cli_execute/server.rb:171-172 | a handler that raised is answered with one -32000 error carrying the exception when `id` is truthy, and with nothing otherwise; a handler that returned writes what it wrote |
| JsonRpc.InitializeResult | server_cli_execute/server.rb:42-46 | the `initialize` result holds the given protocol version, empty capabilities and the server's name with version 0.4.3 |
| JsonRpc.HandleInitialize | jira-integration/main.rb:25-31 | one result echoing `params.protocolVersion`, or "2025-06-18" when it is nil or false; raises exactly when `params` is neither nil nor a Hash |
| JsonRpc.Live | jira-integration/main.rb:81-82 | the loop handles exactly the lines before the first one `strip!` cannot read (all of them when there is none) |
| JsonRpc.LiveAppend | jira-integration/main.rb:81-82 | over two streams in a row, the loop stops in the first when it holds an unreadable line, and otherwise in the second |
| JsonRpc.TranscriptResponses | server_cli_execute/server.rb:29-174 | when each line is answered at most once, a whole stream holds at most one response per admitted request, even when an unreadable line ends it early |
| JsonRpc.TranscriptSplit | jira-integration/main.rb:81-103 | the loop keeps no state between lines: the transcript of two streams in a row is their two transcripts in a row, unless the first holds an unreadable line, after which nothing more is written |
| OutputRelay.Start | server_cli_execute/server.rb:94 | the initial wait ends at the first poll at which the file holds a byte, and at none if it never does |
| OutputRelay.RelayFromDelivers | server_cli_execute/server.rb:99-115 | from any file position and poll, the chunks still to come (`OutputRelay.RelayFrom`) concatenate to exactly the file's bytes from that position up to what the file held at the poll where the loop breaks (`OutputRelay.EndPoll`) |
| OutputRelay.RelayFromChunked | server_cli_execute/server.rb:100-103 | every chunk sent is non-empty and at most 4096 bytes |
| OutputRelay.RelayDelivers | server_cli_execute/server.rb:91-121 | the whole relay (`OutputRelay.RelayChunks`) sends, in order, a prefix of the child's output (no byte twice, none out of order) in chunks of 1 to 4096 bytes, and all of it when no byte arrives between an EOF check and the liveness check after it |
| OutputRelay.EndPoll | server_cli_execute/server.rb:100-112 | the loop breaks at a poll at or after the one it starts from, at which the child is dead and the file holds at least the loop's position |
| OutputRelay.LateOutputLost | server_cli_execute/server.rb:100-146 | a child that writes its second byte and exits between the reader's EOF check and its liveness check has that byte sent neither by the relay nor by the final read |
| OutputRelay.AwaitOutput | server_cli_execute/server.rb:94 | the waiting loop stops at the poll `Start` names, or runs out of polls exactly when the file stays empty |
| OutputRelay.ReadLoop | server_cli_execute/server.rb:97-116 | the read loop sends the specified chunks, appends exactly their concatenation to `stdout_all`, which is the file as the stopping poll's EOF check saw it, and leaves only at EOF with the child dead |
| OutputRelay.Relay | server_cli_execute/server.rb:91-121 | the reader thread sends the specified chunks; their concatenation equals `stdout_all`, which is a prefix of what the child wrote and all of it when no byte arrives between the two checks; each chunk holds 1 to 4096 bytes; it stops only at EOF with the child dead (or keeps waiting on a file that stays empty) |
| OutputRelay.ByteSliceFrom | server_cli_execute/server.rb:134 | `byteslice(n..-1)` is nil exactly when `n` is past the end |
| OutputRelay.FinalReadGuard | server_cli_execute/server.rb:134 | the final-read guard is false for every remainder and every `stdout_all` |
| OutputRelay.FinalRead | server_cli_execute/server.rb:129-146 | the final read leaves `stdout_all` unchanged and sends nothing, whatever the file holds and wherever it seeks |
| ShellServer.ShellTool | server_cli_execute/server.rb:51-63 | the descriptor is named `shell_exec`; its input schema is an object schema that requires exactly `cmd` and allows no other properties |
| ShellServer.ShellToolProperties | server_cli_execute/server.rb:56-59 | `cmd` is a string property, and `cwd` defaults to the fixed root directory |
| ShellServer.ToolsListResult | server_cli_execute/server.rb:49-65 | `tools/list` lists exactly one tool, the descriptor above |
| ShellServer.ReadCwd | server_cli_execute/server.rb:70-71 | `cwd` is the root exactly when the argument's string form is empty, and otherwise that string form unchanged |
| ShellServer.ReadCallId | server_cli_execute/server.rb:86 | `call_id` is the argument when truthy and "unknown" otherwise |
| ShellServer.Normalize | server_cli_execute/server.rb:69-86 | reading the arguments succeeds exactly on a Hash (nil raises at `args[:cmd]`), giving `cmd`, `cwd` and `call_id` as above |
| ShellServer.EscapeLength | server_cli_execute/server.rb:80 | escaping adds exactly one character per double quote |
| ShellServer.EscapeAppend | server_cli_execute/server.rb:80 | escaping works character by character: the escape of a concatenation is the concatenation of the escapes |
| ShellServer.EscapeWithoutQuotes | server_cli_execute/server.rb:80 | a command without double quotes is left unchanged |
| ShellServer.EscapedQuotesFollowBackslash | server_cli_execute/server.rb:80 | every double quote in the escaped command follows a backslash |
| ShellServer.UnescapeEscape | server_cli_execute/server.rb:80 | the `gsub` step (`ShellServer.Escape`) is injective: unescaping undoes it, so no two commands give the same escaped text |
| ShellServer.ScriptArgvCarriesCommand | server_cli_execute/server.rb:81 | the argv (`ShellServer.ScriptArgv`) is `script -qfc`, then `zsh -l -c "` with the escaped command and a closing quote, then the temp path; its quoted part unescapes to the command |
| ShellServer.Notifications | server_cli_execute/server.rb:104-107 | one `tool/output` notification per chunk, in order, each carrying the `call_id` and that chunk |
| ShellServer.StreamedNotifications | server_cli_execute/server.rb:99-115 | the chunks the notifications carry, concatenated, are the text of the relay's chunks concatenated |
| ShellServer.ToolResult | server_cli_execute/server.rb:153-167 | the call's result is one text content item holding the output, with `isError` false |
| ShellServer.ExecuteSpawned | server_cli_execute/server.rb:74-148 | for a spawned command, `ShellServer.Execute` sends the relay's chunks and answers with their concatenation, a prefix of what the child wrote and all of it when no byte arrives between the reader's last two checks |
| ShellServer.ExecuteFailed | server_cli_execute/server.rb:149-152 | when the temp file, the directory change or the spawn raises, nothing is sent and the text is "Command failed: " with the message and a newline |
| ShellServer.SilentLines | server_cli_execute/server.rb:29-37 | unreadable lines, blank lines, lines that do not parse or are not objects, and requests whose `id` is nil get no output from `ShellServer.HandleLine`, whatever their method |
| ShellServer.UnknownMethodSilent | server_cli_execute/server.rb:39-170 | a method other than `initialize`, `tools/list`, `call` and `tools/call` gets no output |
| ShellServer.InitializeAnswer | server_cli_execute/server.rb:40-46 | `initialize` gets one result echoing the requested protocol version or "2025-06-18", naming `ruby-shell` 0.4.3; unreadable `params` raise |
| ShellServer.ToolsListAnswer | server_cli_execute/server.rb:48-65 | `tools/list` gets exactly the one-tool registry, whatever its params |
| ShellServer.CallWithoutArguments | server_cli_execute/server.rb:68-69 | a call whose `params` cannot be entered, or whose `arguments` are nil or not a Hash, raises before anything runs |
| ShellServer.CallAnswer | server_cli_execute/server.rb:67-168 | a call with a Hash of arguments (`ShellServer.HandleCall`) writes one notification per chunk sent, then one result holding the execution's text |
| ShellServer.CallFailureFolded | server_cli_execute/server.rb:149-167 | a failed temp file, directory change or spawn still gets one successful result, with no notifications, holding "Command failed: " and the message, with `isError` false |
| ShellServer.CallStreamsThenAnswers | server_cli_execute/server.rb:67-168 | a spawned call streams the relay's chunks tagged with its `call_id`, then answers once; the streamed text equals the answer's text, which is a prefix of the child's output and all of it when no byte arrives between the reader's last two checks |
| ShellServer.DispatchShape | server_cli_execute/server.rb:39-170 | what `ShellServer.Dispatch` writes for a request is notifications followed by at most one result, which carries the request's `id` |
| ShellServer.ShellAnswersOnce | server_cli_execute/server.rb:29-174 | every line gets at most one response, after all its notifications and echoing its `id`, and an unadmitted line gets nothing |
| ShellServer.ResponsesBounded | server_cli_execute/server.rb:29-174 | a whole input stream gets at most one response per admitted request |
| ShellServer.Serve | server_cli_execute/server.rb:29-174 | the loop writes the concatenation of every line's output up to the first unreadable line, reports whether it ended on one, and writes at most one response per admitted request |
| JiraServer.JiraTool | jira-integration/main.rb:37-48 | the descriptor is named `jira_connect`; its input schema is an object schema that requires exactly `issue_key` and allows no other properties |
| JiraServer.ToolsListResult | jira-integration/main.rb:34-51 | `tools/list` lists exactly one tool, the descriptor above |
| JiraServer.CallResult | jira-integration/main.rb:66-75 | the call's result has `content` equal to the fetched issue and `isError` false |
| JiraServer.HandleCall | jira-integration/main.rb:53-77 | `handle_call` with a Hash of arguments and a fetch that returns give one result with the issue; a fetch that raises always ends in the undefined-name error for `stdout_all`; nil arguments raise at `args[:issue_key]` |
| JiraServer.SilentLines | jira-integration/main.rb:81-89 | unreadable, blank, unparsable and non-object lines and requests whose `id` is nil get no output from `JiraServer.HandleLine` |
| JiraServer.UnknownMethodSilent | jira-integration/main.rb:91-99 | an unrecognised method gets no output |
| JiraServer.InitializeAnswer | jira-integration/main.rb:25-31 | `initialize` gets one result echoing the requested protocol version or "2025-06-18", naming `jira_connect` 0.4.3; unreadable `params` raise |
| JiraServer.ToolsListAnswer | jira-integration/main.rb:34-51 | `tools/list` gets exactly the one-tool registry |
| JiraServer.CallAnswer | jira-integration/main.rb:53-77 | a call with a Hash of arguments (`JiraServer.Dispatch` through `JiraServer.HandleCall`) answers with one result holding the fetched issue when the fetch returns, and raises the undefined-name error for `stdout_all` when it raises, whatever the fetch's message |
| JiraServer.CallWithoutArguments | jira-integration/main.rb:96-98 | nil `arguments` raise at `args[:issue_key]`, arguments that are not a Hash raise too, and `params` that `dig` cannot enter raise before `handle_call` |
| JiraServer.DispatchShape | jira-integration/main.rb:91-99 | `JiraServer.Dispatch` writes at most one message for a request, a result carrying its `id`; no notifications |
| JiraServer.JiraAnswersOnce | jira-integration/main.rb:81-103 | every line gets at most one message, a response echoing its `id`, and an unadmitted line gets nothing |
| JiraServer.ResponsesBounded | jira-integration/main.rb:81-103 | a whole input stream gets at most one response per admitted request |
| JiraServer.Serve | jira-integration/main.rb:81-103 | the loop writes the concatenation of every line's output up to the first unreadable line, reports whether it ended on one, and writes at most one response per admitted request |

## Left out

- JSON text. `JSON.parse` and `to_json` are a library: a line is given with
  its decoded value (or none, when parsing raises). Every message is
  implicitly tagged `jsonrpc: '2.0'`.
- Floating-point JSON numbers are not modelled, and neither are the escapes
  `inspect` applies inside strings. `to_s` of an array or a Hash uses an
  unescaped rendering.
- Ruby's exact exception messages are not modelled. The error response
  carries a `Fault` that names the error.
- Process spawning, `Dir.chdir`, `Tempfile`, `File.readable?` and the
  environment passed to `popen3` are host calls. They are inputs that succeed
  or raise.
- Standard error output is not modelled (the ready banner and the reader
  thread's error log).
- OutputRelay.Relay: models the reader thread run sequentially against a
  fixed schedule of polls. It states partial correctness only, and full
  delivery only under `OutputRelay.Settled`. The timing
  is not modelled: the sleeps, `wait_thr.join`, the two-second
  `reader_thread.join(2)` and a reader that is still running (or leaked)
  when the answer is written. The same holds for `ReadLoop` and
  `AwaitOutput`.
- ShellServer.Execute: assumes the relay has finished when the answer is
  built. A reader still running after `join(2)` could send notifications
  after the result, or leave `stdout_all` short.
- The reader thread's own `rescue` is not modelled (the file cannot be
  opened, or a write fails). Neither are exceptions raised after the spawn
  succeeded. The environment always lets the relay run to completion.
- ShellServer.ScriptArgv: states only the argv. `script -qfc` hands the
  string `zsh -l -c "…"` to a shell (`$SHELL -c`, or `/bin/sh`), which
  parses the double quotes before `zsh` runs. That shell's reading is not
  modelled: it gives a backslash, `$` and a backquote inside the quotes
  their own meaning, so the command `zsh` runs can differ from `cmd`. For
  example, `echo \"` is escaped to `echo \\"`, and that shell reads `\\`
  as one backslash and the quote after it as the end of the string.
  `ShellServer.UnescapeEscape` proves only that the `gsub` step is
  injective.
- Text is byte-wise: a chunk's text and the answer's text hold one
  character per byte. A UTF-8 character such as "é" becomes two characters,
  and a 4096-byte read can split a character across two chunks. How the
  JSON layer encodes such text is not modelled.
- `jira-integration/jira_service.rb` is not part of this model. Its
  configuration, HTTP client and response reshaping are the `Fetch` value.
- The manual test scripts (`server-test.rb`,
  `jira-integration/main-test.rb`) launch the servers and pipe lines
  through them. They have no logic of their own to model.
