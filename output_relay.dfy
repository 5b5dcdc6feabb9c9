/** The relay of a command's output in `tools/call` (server.rb): the reader
    thread that forwards what the child writes to its temp file as
    `tool/output` chunks, and the "final read" block that runs after the
    child has exited.

    The reader thread and the child run concurrently in the source. Here the
    child's side is an environment fixed in advance: `out` is everything the
    child will ever write, and `polls[k]` is what the reader sees at its
    k-th look at the file: how many bytes of `out` are on disk when it
    checks for EOF and reads, and, when it is at EOF, what `alive?` answers
    just after. The reader's side is the loop itself, run sequentially
    against that environment. */
module OutputRelay {
  import opened RubyValues

  /** `f.read(4096)` */
  const ReadSize: nat := 4096

  datatype Snapshot = Snapshot(written: nat, alive: bool)

  datatype RawEnv = RawEnv(out: seq<byte>, polls: seq<Snapshot>)

  /** The file only grows and never past what the child writes, and the
      child has exited by the last poll. Nothing ties the two observations
      of one poll together: the child may write its last bytes and exit
      between the EOF check and the liveness check, so a poll that finds
      the child gone need not find all of its output in the file. */
  predicate WellFormed(e: RawEnv) {
    |e.polls| > 0 &&
    (forall k :: 0 <= k < |e.polls| ==> e.polls[k].written <= |e.out|) &&
    (forall k :: 0 < k < |e.polls| ==> e.polls[k - 1].written <= e.polls[k].written) &&
    !e.polls[|e.polls| - 1].alive
  }

  type Env = e: RawEnv | WellFormed(e) witness RawEnv([], [Snapshot(0, false)])

  /** No byte lands between a poll's EOF check and its liveness check:
      whenever the reader finds the child gone, the file already holds
      everything the child wrote. */
  predicate Settled(e: Env) {
    forall k :: 0 <= k < |e.polls| && !e.polls[k].alive ==> e.polls[k].written == |e.out|
  }

  function Min(a: nat, b: nat): nat {
    if a < b then a else b
  }

  /** The poll after `k`; the last poll repeats once the child is gone. */
  function Next(e: Env, k: nat): (r: nat)
    requires k < |e.polls|
    ensures r < |e.polls| && k <= r
  {
    if k + 1 < |e.polls| then k + 1 else k
  }

  /** All chunks concatenated in emission order. */
  function Concat(chunks: seq<seq<byte>>): (r: seq<byte>)
  {
    if chunks == [] then [] else Concat(chunks[..|chunks| - 1]) + chunks[|chunks| - 1]
  }

  lemma {:induction false} ConcatPrepend(c: seq<byte>, cs: seq<seq<byte>>)
    ensures Concat([c] + cs) == c + Concat(cs)
    decreases |cs|
  {
    if cs == [] {
      assert [c] + cs == [c];
      assert [c][..0] == [];
    } else {
      var n := |cs| - 1;
      assert ([c] + cs)[..|[c] + cs| - 1] == [c] + cs[..n];
      ConcatPrepend(c, cs[..n]);
    }
  }

  lemma ConcatAppend(cs: seq<seq<byte>>, c: seq<byte>)
    ensures Concat(cs + [c]) == Concat(cs) + c
  {
    assert (cs + [c])[..|cs|] == cs;
  }

  lemma SliceSplit(s: seq<byte>, i: nat, j: nat, k: nat)
    requires i <= j <= k <= |s|
    ensures s[i..k] == s[i..j] + s[j..k]
  {
  }

  /** Every emitted chunk is non-empty and at most one read's worth. */
  predicate Chunked(chunks: seq<seq<byte>>) {
    forall i :: 0 <= i < |chunks| ==> 0 < |chunks[i]| <= ReadSize
  }

  /** The first poll at or after `k` at which the file holds a byte: the
      reader's `sleep 0.05 until File.exist?(tmp_path) && File.size(tmp_path) > 0`. */
  function Start(e: Env, k: nat): (r: Option<nat>)
    requires k <= |e.polls|
    ensures r.Some? ==> k <= r.value < |e.polls| && e.polls[r.value].written > 0
    ensures r.Some? ==> forall j :: k <= j < r.value ==> e.polls[j].written == 0
    ensures r.None? ==> forall j :: k <= j < |e.polls| ==> e.polls[j].written == 0
    decreases |e.polls| - k
  {
    if k == |e.polls| then None
    else if e.polls[k].written > 0 then Some(k)
    else Start(e, k + 1)
  }

  /** The chunks the reader loop emits from poll `k` with the file handle
      at offset `pos`: at EOF it stops if the child is dead and otherwise
      waits for the next poll; before EOF it reads up to `ReadSize` bytes. */
  function RelayFrom(e: Env, k: nat, pos: nat): seq<seq<byte>>
    requires k < |e.polls| && pos <= |e.out|
    decreases |e.out| - pos, |e.polls| - k
  {
    var s := e.polls[k];
    if pos < s.written then
      var n := Min(ReadSize, s.written - pos);
      [e.out[pos..pos + n]] + RelayFrom(e, Next(e, k), pos + n)
    else if !s.alive then []
    else RelayFrom(e, k + 1, pos)
  }

  /** The poll at which that loop breaks: the first at which it is at EOF
      and finds the child gone. */
  function EndPoll(e: Env, k: nat, pos: nat): (r: nat)
    requires k < |e.polls| && pos <= e.polls[k].written
    ensures k <= r < |e.polls| && !e.polls[r].alive && pos <= e.polls[r].written
    decreases |e.out| - pos, |e.polls| - k
  {
    var s := e.polls[k];
    if pos < s.written then EndPoll(e, Next(e, k), pos + Min(ReadSize, s.written - pos))
    else if !s.alive then k
    else EndPoll(e, k + 1, pos)
  }

  /** The chunks of the whole relay. A file that never receives a byte
      keeps the reader in its initial wait, and it emits nothing. */
  function RelayChunks(e: Env): seq<seq<byte>> {
    match Start(e, 0)
    case None => []
    case Some(k) => RelayFrom(e, k, 0)
  }

  /** One step of the loop before EOF: a read of up to `ReadSize` bytes,
      then the rest of the relay from the next poll, where the file holds at
      least what has been read. */
  lemma RelayFromRead(e: Env, k: nat, pos: nat)
    requires k < |e.polls| && pos < e.polls[k].written
    ensures var n := Min(ReadSize, e.polls[k].written - pos);
      pos + n <= e.polls[Next(e, k)].written <= |e.out| &&
      RelayFrom(e, k, pos) == [e.out[pos..pos + n]] + RelayFrom(e, Next(e, k), pos + n) &&
      EndPoll(e, k, pos) == EndPoll(e, Next(e, k), pos + n)
  {
  }

  /** The step of the loop before EOF, as the loop keeps it: the chunk
      read joins those already sent. */
  lemma ReadStep(e: Env, k: nat, pos: nat, sent: seq<seq<byte>>, whole: seq<seq<byte>>)
    requires k < |e.polls| && pos < e.polls[k].written
    requires sent + RelayFrom(e, k, pos) == whole
    ensures var n := Min(ReadSize, e.polls[k].written - pos);
      pos + n <= e.polls[Next(e, k)].written <= |e.out| &&
      (sent + [e.out[pos..pos + n]]) + RelayFrom(e, Next(e, k), pos + n) == whole &&
      e.out[..pos + n] == e.out[..pos] + e.out[pos..pos + n]
  {
    RelayFromRead(e, k, pos);
    var n := Min(ReadSize, e.polls[k].written - pos);
    var rest := RelayFrom(e, Next(e, k), pos + n);
    assert (sent + [e.out[pos..pos + n]]) + rest == sent + ([e.out[pos..pos + n]] + rest);
  }

  /** At EOF with the child gone, the loop breaks: nothing more is sent. */
  lemma StopStep(e: Env, k: nat, pos: nat, sent: seq<seq<byte>>, whole: seq<seq<byte>>)
    requires k < |e.polls| && pos == e.polls[k].written && !e.polls[k].alive
    requires sent + RelayFrom(e, k, pos) == whole
    ensures sent == whole
  {
    assert sent + [] == sent;
  }

  /** At EOF with the child alive, the loop waits for the next poll, which
      exists because the child is gone by the last one. */
  lemma WaitStep(e: Env, k: nat, pos: nat)
    requires k < |e.polls| && pos == e.polls[k].written && e.polls[k].alive
    ensures k + 1 < |e.polls| && pos <= e.polls[k + 1].written <= |e.out|
    ensures RelayFrom(e, k, pos) == RelayFrom(e, k + 1, pos)
    ensures EndPoll(e, k, pos) == EndPoll(e, k + 1, pos)
  {
  }

  /** The read step of `RelayFromDelivers`, on plain values. */
  lemma DeliversRead(out: seq<byte>, pos: nat, n: nat, w: nat, rest: seq<seq<byte>>)
    requires pos + n <= w <= |out|
    requires Concat(rest) == out[pos + n..w]
    ensures Concat([out[pos..pos + n]] + rest) == out[pos..w]
  {
    ConcatPrepend(out[pos..pos + n], rest);
    SliceSplit(out, pos, pos + n, w);
  }

  /** The read step of `RelayFromDelivers`: what holds from the next
      poll on holds from this one. */
  lemma DeliversReadStep(e: Env, k: nat, pos: nat)
    requires k < |e.polls| && pos < e.polls[k].written
    requires var n := Min(ReadSize, e.polls[k].written - pos);
      Concat(RelayFrom(e, Next(e, k), pos + n)) == e.out[pos + n..e.polls[EndPoll(e, Next(e, k), pos + n)].written]
    ensures Concat(RelayFrom(e, k, pos)) == e.out[pos..e.polls[EndPoll(e, k, pos)].written]
  {
    RelayFromRead(e, k, pos);
    var n := Min(ReadSize, e.polls[k].written - pos);
    DeliversRead(e.out, pos, n, e.polls[EndPoll(e, k, pos)].written, RelayFrom(e, Next(e, k), pos + n));
  }

  /** The stop step of `RelayFromDelivers`: nothing is left to send. */
  lemma DeliversStopStep(e: Env, k: nat, pos: nat)
    requires k < |e.polls| && pos == e.polls[k].written && !e.polls[k].alive
    ensures Concat(RelayFrom(e, k, pos)) == e.out[pos..e.polls[EndPoll(e, k, pos)].written]
  {
    assert e.out[pos..pos] == [];
  }

  /** From any point of the loop, the chunks still to come are the file's
      bytes from the loop's position up to what the file holds at the poll
      where the loop breaks. */
  lemma {:induction false} RelayFromDelivers(e: Env, k: nat, pos: nat)
    requires k < |e.polls| && pos <= e.polls[k].written
    ensures Concat(RelayFrom(e, k, pos)) == e.out[pos..e.polls[EndPoll(e, k, pos)].written]
    decreases |e.out| - pos, |e.polls| - k
  {
    var s := e.polls[k];
    if pos < s.written {
      RelayFromRead(e, k, pos);
      RelayFromDelivers(e, Next(e, k), pos + Min(ReadSize, s.written - pos));
      DeliversReadStep(e, k, pos);
    } else if !s.alive {
      DeliversStopStep(e, k, pos);
    } else {
      WaitStep(e, k, pos);
      RelayFromDelivers(e, k + 1, pos);
    }
  }

  /** ... cut into pieces of 1 to `ReadSize` bytes. */
  lemma {:induction false} RelayFromChunked(e: Env, k: nat, pos: nat)
    requires k < |e.polls| && pos <= |e.out|
    ensures Chunked(RelayFrom(e, k, pos))
    decreases |e.out| - pos, |e.polls| - k
  {
    var s := e.polls[k];
    if pos < s.written {
      RelayFromRead(e, k, pos);
      var n := Min(ReadSize, s.written - pos);
      var rest := RelayFrom(e, Next(e, k), pos + n);
      RelayFromChunked(e, Next(e, k), pos + n);
      var all := [e.out[pos..pos + n]] + rest;
      forall i | 0 <= i < |all| ensures 0 < |all[i]| <= ReadSize {
        if i > 0 {
          assert all[i] == rest[i - 1];
        }
      }
    } else if s.alive {
      RelayFromChunked(e, k + 1, pos);
    }
  }

  /** The relay's partial correctness: what it emits, concatenated in
      order, is a prefix of what the child wrote (no byte is sent twice or
      out of order), and every chunk is non-empty and at most one read's
      worth. The whole output is sent when no byte arrives between an EOF
      check and the liveness check after it. */
  lemma RelayDelivers(e: Env)
    ensures Concat(RelayChunks(e)) <= e.out
    ensures Chunked(RelayChunks(e))
    ensures Settled(e) ==> Concat(RelayChunks(e)) == e.out
  {
    match Start(e, 0)
    case None =>
      assert e.polls[|e.polls| - 1].written == 0;
    case Some(k) =>
      RelayFromDelivers(e, k, 0);
      RelayFromChunked(e, k, 0);
      var w := e.polls[EndPoll(e, k, 0)].written;
      assert e.out[0..w] == e.out[..w];
  }

  /** The race the comment above the final read has in mind: the child
      writes its second byte and exits after the reader's EOF check and
      before its liveness check. The loop breaks with that byte unread, and
      the final read does not send it either. */
  lemma LateOutputLost()
    ensures var e: Env := RawEnv([1, 2], [Snapshot(1, true), Snapshot(1, false), Snapshot(2, false)]);
      RelayChunks(e) == [[1]] && Concat(RelayChunks(e)) == [1] &&
      FinalRead(true, e.out, 0, Concat(RelayChunks(e))) == FinalOutcome([1], [])
  {
    var e: Env := RawEnv([1, 2], [Snapshot(1, true), Snapshot(1, false), Snapshot(2, false)]);
    assert Start(e, 0) == Some(0);
    assert e.out[0..1] == [1];
    assert RelayFrom(e, 1, 1) == [];
    assert RelayFrom(e, 0, 0) == [[1]] + RelayFrom(e, 1, 1);
    assert Concat([[1]]) == Concat([]) + [1];
  }

  /** How the reader thread ended: it never left its initial wait (the file
      stayed empty), or it broke out of its loop at poll `poll`. */
  datatype Exit = StillWaiting | Stopped(poll: nat)

  /** `sleep 0.05 until File.exist?(tmp_path) && File.size(tmp_path) > 0`,
      run until the polls run out: the first poll at which the file holds a
      byte, if any. */
  method AwaitOutput(e: Env) returns (start: Option<nat>)
    ensures start == Start(e, 0)
  {
    var k: nat := 0;
    while k < |e.polls| && e.polls[k].written == 0
      invariant k <= |e.polls|
      invariant Start(e, k) == Start(e, 0)
    {
      k := k + 1;
    }
    if k == |e.polls| {
      return None;
    }
    return Some(k);
  }

  /** The `loop do` of the reader thread, entered at poll `first` with the
      file handle at offset 0. It returns what it appended to `stdout_all`,
      the chunks it sent, and the poll at which it found EOF with the child
      gone: `stdout_all` is then the file as that poll's EOF check saw it. */
  method ReadLoop(e: Env, first: nat) returns (stdoutAll: seq<byte>, chunks: seq<seq<byte>>, stop: nat)
    requires first < |e.polls|
    ensures chunks == RelayFrom(e, first, 0)
    ensures stop < |e.polls| && !e.polls[stop].alive
    ensures stdoutAll == e.out[..e.polls[stop].written] && Concat(chunks) == stdoutAll
  {
    var k: nat := first;
    var pos: nat := 0;
    stdoutAll, chunks := [], [];
    while true
      invariant k < |e.polls| && pos <= e.polls[k].written <= |e.out|
      invariant stdoutAll == e.out[..pos] && Concat(chunks) == stdoutAll
      invariant chunks + RelayFrom(e, k, pos) == RelayFrom(e, first, 0)
      decreases |e.out| - pos, |e.polls| - k
    {
      var s := e.polls[k];
      if pos < s.written {
        // `f.read` past a position short of EOF returns a non-empty chunk,
        // so the source's `if chunk && !chunk.empty?` always holds here.
        var n := Min(ReadSize, s.written - pos);
        var chunk := e.out[pos..pos + n];
        ReadStep(e, k, pos, chunks, RelayFrom(e, first, 0));
        ConcatAppend(chunks, chunk);
        stdoutAll := stdoutAll + chunk;
        chunks := chunks + [chunk];
        pos := pos + n;
        k := Next(e, k);
      } else if !s.alive {
        StopStep(e, k, pos, chunks, RelayFrom(e, first, 0));
        return stdoutAll, chunks, k;
      } else {
        WaitStep(e, k, pos);
        k := k + 1;
      }
    }
  }

  /** The reader thread's body, run to completion. It returns what it
      appended to `stdout_all` and the chunks it sent, in order: a prefix
      of the child's output, cut into reads of at most `ReadSize` bytes,
      and all of it when no byte arrives between an EOF check and the
      liveness check after it. */
  method Relay(e: Env) returns (stdoutAll: seq<byte>, chunks: seq<seq<byte>>, exit: Exit)
    ensures chunks == RelayChunks(e)
    ensures Concat(chunks) == stdoutAll && stdoutAll <= e.out
    ensures Chunked(chunks)
    ensures exit.Stopped? ==>
      exit.poll < |e.polls| && !e.polls[exit.poll].alive && |stdoutAll| == e.polls[exit.poll].written
    ensures exit.StillWaiting? ==> chunks == [] && forall k :: 0 <= k < |e.polls| ==> e.polls[k].written == 0
    ensures Settled(e) ==> stdoutAll == e.out
  {
    RelayDelivers(e);
    var start := AwaitOutput(e);
    match start
    case None =>
      stdoutAll, chunks, exit := [], [], StillWaiting;
    case Some(k) =>
      var stop;
      stdoutAll, chunks, stop := ReadLoop(e, k);
      exit := Stopped(stop);
  }

  /** Ruby values the final-read guard compares. */
  datatype RubyObj = RNil | RBool(b: bool) | RStr(s: seq<byte>)

  /** `str.byteslice(from..-1)`: nil when `from` is past the end. */
  function ByteSliceFrom(s: seq<byte>, from: nat): (r: RubyObj)
    ensures r == RNil <==> from > |s|
  {
    if from > |s| then RNil else RStr(s[from..])
  }

  /** Ruby's `!`: true of nil and false only. */
  function Not(v: RubyObj): bool {
    v == RNil || v == RBool(false)
  }

  /** The guard of the final read as written:
      `remainder && !remainder.empty? && !remainder.byteslice(n..-1) == remainder`.
      `!` binds tighter than `==`, so the last conjunct compares the boolean
      `!slice` with the string `remainder`, and Ruby's `==` between a
      boolean and a string is false. */
  function FinalReadGuard(remainder: seq<byte>, stdoutAll: seq<byte>): (r: bool)
    ensures !r
  {
    remainder != [] && RBool(Not(ByteSliceFrom(remainder, |stdoutAll|))) == RStr(remainder)
  }

  predicate EndsWith(s: seq<byte>, suffix: seq<byte>) {
    |suffix| <= |s| && s[|s| - |suffix|..] == suffix
  }

  /** What the final-read block leaves behind: `stdout_all` and the chunks
      it sends. */
  datatype FinalOutcome = FinalOutcome(stdoutAll: seq<byte>, sent: seq<seq<byte>>)

  /** The block after `reader_thread.join(2)`: when the file is readable,
      seek to `lastPos`, read the rest, and append and send it when the
      guard and the `end_with?` check let it through. The caller passes
      `last_pos`, which the source never advances from 0. The guard is
      always false, so the block changes nothing and sends nothing. */
  function FinalRead(readable: bool, file: seq<byte>, lastPos: nat, stdoutAll: seq<byte>): (r: FinalOutcome)
    ensures r == FinalOutcome(stdoutAll, [])
  {
    if !readable then FinalOutcome(stdoutAll, [])
    else
      var remainder := if lastPos <= |file| then file[lastPos..] else [];
      if FinalReadGuard(remainder, stdoutAll) && !EndsWith(stdoutAll, remainder) then
        FinalOutcome(stdoutAll + remainder, [remainder])
      else FinalOutcome(stdoutAll, [])
  }
}
