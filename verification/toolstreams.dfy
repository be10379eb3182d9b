/**
 * The standard streams of one command run: `ToolStream` length accounting, the
 * routing of container frames to stdout or stderr, and the `/dev/std*` records
 * a successful run adds to its log entry.
 */
module ToolStreams {

  import opened Wrappers
  import opened CommandLogs
  import opened Frames

  /**
   * A stream to or from the container. The md5 object is represented by the
   * bytes it has been fed (`hashed`); `written` is what went to the host stream.
   */
  datatype ToolStream = ToolStream(dataLength: nat, hashed: seq<byte>, raw: seq<byte>, written: seq<byte>)

  /** A fresh `ToolStream`. */
  const Fresh: ToolStream := ToolStream(0, [], [], [])

  /** The stream's `md5.hexdigest()`, for an md5 function given as a parameter. */
  function HexDigest(s: ToolStream, md5: seq<byte> -> Digest): Digest
  {
    md5(s.hashed)
  }

  /** `after` is `before` having taken in `data`, kept in `raw` or written out depending on `buffer`. */
  predicate Received(before: ToolStream, after: ToolStream, data: seq<byte>, buffer: bool)
  {
    && after.dataLength == before.dataLength + |data|
    && after.hashed == before.hashed + data
    && after.raw == before.raw + (if buffer then data else [])
    && after.written == before.written + (if buffer then [] else data)
  }

  /** `ToolStream.update`: counts the bytes and feeds them to the digest, nothing else. */
  function Update(s: ToolStream, data: seq<byte>): (r: ToolStream)
    ensures r.dataLength == s.dataLength + |data|
    ensures r.hashed == s.hashed + data
    ensures r.raw == s.raw && r.written == s.written
  {
    s.(dataLength := s.dataLength + |data|, hashed := s.hashed + data)
  }

  /** Feeding `a` then `b` is feeding `a + b`: the digest does not depend on how data was chunked. */
  lemma UpdateTwice(s: ToolStream, a: seq<byte>, b: seq<byte>)
    ensures Update(Update(s, a), b) == Update(s, a + b)
  {
    assert s.hashed + a + b == s.hashed + (a + b);
  }

  /** `stdin_s.update(s_data)` for every chunk read from standard input, in order. */
  function FeedStdin(s: ToolStream, chunks: seq<Chunk>): ToolStream
    decreases |chunks|
  {
    if |chunks| == 0 then s else FeedStdin(Update(s, chunks[0]), chunks[1..])
  }

  /** Reading standard input chunk by chunk counts and hashes exactly all of it, and never buffers it. */
  lemma {:induction false} FeedStdinAll(s: ToolStream, chunks: seq<Chunk>)
    ensures FeedStdin(s, chunks) == Update(s, Flatten(chunks))
    ensures FeedStdin(s, chunks).raw == s.raw
    decreases |chunks|
  {
    if |chunks| > 0 {
      FeedStdinAll(Update(s, chunks[0]), chunks[1..]);
      UpdateTwice(s, chunks[0], Flatten(chunks[1..]));
    } else {
      assert s.hashed + [] == s.hashed;
    }
  }

  /** A routed chunk: `update`, then `raw.extend` or `stream.write` depending on `buffer_output`. */
  function Emit(s: ToolStream, data: seq<byte>, buffer: bool): (r: ToolStream)
    ensures Received(s, r, data, buffer)
  {
    var u := Update(s, data);
    if buffer then u.(raw := u.raw + data) else u.(written := u.written + data)
  }

  /** Frame type of the container's standard output. */
  const StdoutType: nat := 1
  /** Frame type of the container's standard error. */
  const StderrType: nat := 2

  /** The streams the container's output is routed to; `stdout` is None when it is not captured. */
  datatype Outputs = Outputs(stdout: Option<ToolStream>, stderr: ToolStream, bufferOutput: bool)

  /** Routes one non-empty frame: type 1 to stdout, type 2 to stderr, any other type is discarded. */
  function Route(o: Outputs, streamType: nat, data: seq<byte>): (r: Outputs)
    ensures r.bufferOutput == o.bufferOutput
    ensures r.stdout.Some? <==> o.stdout.Some?
    ensures streamType != StdoutType ==> r.stdout == o.stdout
    ensures streamType != StderrType ==> r.stderr == o.stderr
    ensures streamType == StdoutType && o.stdout.Some? ==> Received(o.stdout.value, r.stdout.value, data, o.bufferOutput)
    ensures streamType == StderrType ==> Received(o.stderr, r.stderr, data, o.bufferOutput)
  {
    if streamType == StdoutType then
      match o.stdout
      case Some(s) => o.(stdout := Some(Emit(s, data, o.bufferOutput)))
      case None => o
    else if streamType == StderrType then
      o.(stderr := Emit(o.stderr, data, o.bufferOutput))
    else
      o
  }

  /** The exception a payload cut short raises. */
  const TruncatedMessage: string := "Failed to read all data from the container"

  /**
   * The container side of the I/O loop, over everything the socket delivers:
   * frames are routed until a frame with an empty payload (end of stream, or a
   * zero-length frame) ends the loop; a payload cut short is an error.
   */
  function Demux(bytes: seq<byte>, o: Outputs): (r: Result<Outputs>)
    ensures r.Failure? ==> r.error == TruncatedMessage
    ensures |bytes| < HeaderSize ==> r == Success(o)
    ensures r.Success? ==> r.value.bufferOutput == o.bufferOutput && (r.value.stdout.Some? <==> o.stdout.Some?)
    ensures r.Success? ==> o.stderr.hashed <= r.value.stderr.hashed && o.stderr.raw <= r.value.stderr.raw
    decreases |bytes|
  {
    var (u, n) := DecodeFrame(bytes);
    match u
    case Truncated => Failure(TruncatedMessage)
    case Frame(t, p) => if |p| == 0 then Success(o) else Demux(bytes[n..], Route(o, t, p))
  }

  /**
   * The socket branch of the `select` loop in `__container_exec`, reading the
   * socket frame by frame; it agrees with `Demux` over the socket's bytes.
   */
  method ContainerIo(sock: seq<Chunk>, o: Outputs) returns (r: Result<Outputs>)
    ensures r == Demux(Flatten(sock), o)
  {
    var s := sock;
    var out := o;
    while true
      invariant Demux(Flatten(s), out) == Demux(Flatten(sock), o)
      decreases |Flatten(s)|
    {
      var u, s' := UnpackContainerStream(s);
      match u
      case Truncated =>
        return Failure(TruncatedMessage);
      case Frame(t, p) =>
        if |p| == 0 {
          return Success(out);
        }
        out, s := Route(out, t, p), s';
    }
  }

  /** A frame as a sender means it: stream type and payload. */
  datatype Message = Message(streamType: byte, payload: seq<byte>)

  /** Frames worth sending: a non-empty payload whose length fits the 56-bit field. */
  predicate Sendable(ms: seq<Message>)
  {
    forall i :: 0 <= i < |ms| ==> 0 < |ms[i].payload| < TypeUnit
  }

  /** The bytes a sender writes for a sequence of frames. */
  function EncodeMessages(ms: seq<Message>): seq<byte>
    requires Sendable(ms)
  {
    if |ms| == 0 then [] else EncodeFrame(ms[0].streamType, ms[0].payload) + EncodeMessages(ms[1..])
  }

  /** All payload bytes sent on stream `streamType`, in order. */
  function Sent(ms: seq<Message>, streamType: nat): seq<byte>
  {
    if |ms| == 0 then []
    else (if ms[0].streamType == streamType then ms[0].payload else []) + Sent(ms[1..], streamType)
  }

  lemma ReceivedNothing(s: ToolStream, buffer: bool)
    ensures Received(s, s, [], buffer)
  {
    assert s.hashed + [] == s.hashed && s.raw + [] == s.raw && s.written + [] == s.written;
  }

  lemma ReceivedChain(a: ToolStream, b: ToolStream, c: ToolStream, d1: seq<byte>, d2: seq<byte>, buffer: bool)
    requires Received(a, b, d1, buffer) && Received(b, c, d2, buffer)
    ensures Received(a, c, d1 + d2, buffer)
  {
    assert a.hashed + d1 + d2 == a.hashed + (d1 + d2);
    if buffer {
      assert a.raw + d1 + d2 == a.raw + (d1 + d2);
      assert a.written + [] + [] == a.written;
    } else {
      assert a.written + d1 + d2 == a.written + (d1 + d2);
      assert a.raw + [] + [] == a.raw;
    }
  }

  /** One whole non-empty frame at the front: it is routed and the loop goes on with what follows. */
  lemma DemuxStep(m: Message, tail: seq<byte>, o: Outputs)
    requires 0 < |m.payload| < TypeUnit
    ensures Demux(EncodeFrame(m.streamType, m.payload) + tail, o) == Demux(tail, Route(o, m.streamType, m.payload))
  {
    var bytes := EncodeFrame(m.streamType, m.payload) + tail;
    FrameRoundTrip(m.streamType, m.payload, tail);
    assert bytes[HeaderSize + |m.payload|..] == tail;
  }

  /** `after` holds what `before` held plus what the frames `ms` carried to each stream. */
  predicate Delivered(before: Outputs, after: Outputs, ms: seq<Message>)
  {
    && after.bufferOutput == before.bufferOutput
    && (after.stdout.Some? <==> before.stdout.Some?)
    && (before.stdout.Some? ==> Received(before.stdout.value, after.stdout.value, Sent(ms, StdoutType), before.bufferOutput))
    && Received(before.stderr, after.stderr, Sent(ms, StderrType), before.bufferOutput)
  }

  lemma DeliveredChain(o: Outputs, m: Message, ms: seq<Message>, r: Outputs)
    requires |ms| > 0 && ms[0] == m
    requires Delivered(Route(o, m.streamType, m.payload), r, ms[1..])
    ensures Delivered(o, r, ms)
  {
    var o' := Route(o, m.streamType, m.payload);
    if m.streamType == StderrType {
      ReceivedChain(o.stderr, o'.stderr, r.stderr, m.payload, Sent(ms[1..], StderrType), o.bufferOutput);
    } else {
      assert Sent(ms, StderrType) == [] + Sent(ms[1..], StderrType);
    }
    if o.stdout.Some? {
      if m.streamType == StdoutType {
        ReceivedChain(o.stdout.value, o'.stdout.value, r.stdout.value, m.payload, Sent(ms[1..], StdoutType), o.bufferOutput);
      } else {
        assert Sent(ms, StdoutType) == [] + Sent(ms[1..], StdoutType);
      }
    }
  }

  /**
   * Whatever sequence of frames the container sends, the stdout stream (when
   * captured) receives exactly the type-1 payloads and the stderr stream exactly
   * the type-2 payloads, in order; other types are dropped.
   */
  lemma {:induction false} DemuxMessages(ms: seq<Message>, o: Outputs)
    requires Sendable(ms)
    ensures Demux(EncodeMessages(ms), o).Success?
    ensures Delivered(o, Demux(EncodeMessages(ms), o).value, ms)
  {
    if |ms| == 0 {
      ReceivedNothing(o.stderr, o.bufferOutput);
      if o.stdout.Some? {
        ReceivedNothing(o.stdout.value, o.bufferOutput);
      }
    } else {
      var m := ms[0];
      var o' := Route(o, m.streamType, m.payload);
      DemuxStep(m, EncodeMessages(ms[1..]), o);
      DemuxMessages(ms[1..], o');
      DeliveredChain(o, m, ms, Demux(EncodeMessages(ms[1..]), o').value);
    }
  }

  /** A frame with an empty payload ends the loop at once, even when more frames follow it. */
  lemma EmptyFrameEndsLoop(streamType: byte, rest: seq<byte>, o: Outputs)
    ensures Demux(EncodeFrame(streamType, []) + rest, o) == Success(o)
  {
    FrameRoundTrip(streamType, [], rest);
  }

  /** A stream that ends inside a payload is an error, whatever was routed before. */
  lemma TruncatedFrameFails(streamType: byte, payload: seq<byte>, cut: nat, o: Outputs)
    requires 0 < |payload| < TypeUnit
    requires cut < |payload|
    ensures Demux(EncodeHeader(streamType, |payload|) + payload[..cut], o).Failure?
  {
    var bytes := EncodeHeader(streamType, |payload|) + payload[..cut];
    assert bytes[..HeaderSize] == EncodeHeader(streamType, |payload|);
    HeaderRoundTrip(streamType, |payload|);
  }

  /** The sentinel paths of the standard streams. */
  const StdinPath: Path := "/dev/stdin"
  const StdoutPath: Path := "/dev/stdout"
  const StderrPath: Path := "/dev/stderr"

  /** `s and s.data_length`: the stream exists and saw at least one byte. */
  predicate HasData(s: Option<ToolStream>)
  {
    s.Some? && s.value.dataLength > 0
  }

  /**
   * The records a finished run adds for its standard streams: only on exit code
   * 0, one per stream that carried data, stdin among the inputs and stdout before
   * stderr among the outputs, each with the md5 of exactly what the stream carried.
   */
  function StreamRecords(exitCode: Option<int>, stdin: Option<ToolStream>, stdout: Option<ToolStream>, stderr: ToolStream,
                         md5: seq<byte> -> Digest): (r: (seq<FileLog>, seq<FileLog>))
    ensures r.0 == [] || (exitCode == Some(0) && HasData(stdin) && r.0 == [FileLog(StdinPath, md5(stdin.value.hashed))])
    ensures exitCode == Some(0) && HasData(stdin) ==> r.0 != []
    ensures forall f :: f in r.1 <==>
      && exitCode == Some(0)
      && ((HasData(stdout) && f == FileLog(StdoutPath, md5(stdout.value.hashed)))
          || (HasData(Some(stderr)) && f == FileLog(StderrPath, md5(stderr.hashed))))
    ensures forall i, j :: 0 <= i < j < |r.1| ==> r.1[i].path == StdoutPath && r.1[j].path == StderrPath
    ensures forall f :: f in r.0 + r.1 ==> IsDevPath(f.path)
  {
    if exitCode != Some(0) then ([], [])
    else
      var ins := if HasData(stdin) then [FileLog(StdinPath, HexDigest(stdin.value, md5))] else [];
      var outs := if HasData(stdout) then [FileLog(StdoutPath, HexDigest(stdout.value, md5))] else [];
      var errs := if HasData(Some(stderr)) then [FileLog(StderrPath, HexDigest(stderr, md5))] else [];
      (ins, outs + errs)
  }

  /** The `ExitCode` entry of the exec inspection: missing, present but null, or a number. */
  datatype InspectedExit = NoExitCode | NullExitCode | ExitCode(code: int)

  /** `inspect.get('ExitCode', 0)`: 0 when the entry is missing, None when it is null. */
  function ExitCodeOf(i: InspectedExit): (r: Option<int>)
    ensures i.NoExitCode? ==> r == Some(0)
    ensures i.NullExitCode? ==> r == None
    ensures i.ExitCode? ==> r == Some(i.code)
  {
    match i
    case NoExitCode => Some(0)
    case NullExitCode => None
    case ExitCode(c) => Some(c)
  }

  /**
   * The end of `__container_exec`: the exit code the inspection gives, the
   * captured raw data when output is buffered, and the stream records, which a
   * run without exit code 0 (a null one included) never gets.
   */
  function ExecLog(command: seq<string>, inspected: InspectedExit, bufferOutput: bool,
                   stdin: Option<ToolStream>, stdout: Option<ToolStream>, stderr: ToolStream,
                   md5: seq<byte> -> Digest): (log: CommandLog)
    ensures log.command == command
    ensures log.exitCode == ExitCodeOf(inspected)
    ensures (log.inFiles, log.outFiles) == StreamRecords(log.exitCode, stdin, stdout, stderr, md5)
    ensures log.exitCode != Some(0) ==> log.inFiles == [] && log.outFiles == []
    ensures bufferOutput ==> (&& log.stdin == (if stdin.Some? then stdin.value.raw else [])
                              && log.stdout == (if stdout.Some? then stdout.value.raw else [])
                              && log.stderr == stderr.raw)
    ensures !bufferOutput ==> log.stdin == [] && log.stdout == [] && log.stderr == []
    ensures forall f :: f in log.inFiles + log.outFiles ==> IsDevPath(f.path)
  {
    var exitCode := ExitCodeOf(inspected);
    var (ins, outs) := StreamRecords(exitCode, stdin, stdout, stderr, md5);
    var captured := if bufferOutput then
        (if stdin.Some? then stdin.value.raw else [],
         if stdout.Some? then stdout.value.raw else [],
         stderr.raw)
      else ([], [], []);
    CommandLog(command, exitCode, ins, outs, captured.0, captured.1, captured.2)
  }

  /**
   * `__container_exec` without the container: standard input arrives as the
   * chunks read from it (None when it is not read), the socket delivers the
   * container's frames, and the exit code comes from the exec inspection.
   */
  function Exec(command: seq<string>, stdinChunks: Option<seq<Chunk>>, writeStdout: bool, sock: seq<Chunk>,
                bufferOutput: bool, inspected: InspectedExit, md5: seq<byte> -> Digest): (r: Result<CommandLog>)
    ensures r.Failure? ==> r.error == TruncatedMessage
    ensures |Flatten(sock)| < HeaderSize ==> r.Success?
    ensures r.Success? ==> r.value.command == command && r.value.exitCode == ExitCodeOf(inspected)
    ensures r.Success? && r.value.exitCode != Some(0) ==> r.value.inFiles == [] && r.value.outFiles == []
    ensures r.Success? && stdinChunks.None? ==> r.value.inFiles == []
    ensures r.Success? ==> forall f :: f in r.value.inFiles + r.value.outFiles ==> IsDevPath(f.path)
  {
    var stdin := if stdinChunks.Some? then Some(FeedStdin(Fresh, stdinChunks.value)) else None;
    var o := Outputs(if writeStdout then Some(Fresh) else None, Fresh, bufferOutput);
    match Demux(Flatten(sock), o)
    case Failure(e) => Failure(e)
    case Success(o') => Success(ExecLog(command, inspected, bufferOutput, stdin, o'.stdout, o'.stderr, md5))
  }

  /**
   * A successful run whose container sends the frames `ms`: the stdout and
   * stderr records carry the md5 of exactly the bytes sent on those streams and
   * exist exactly when those bytes are non-empty (stdout only when captured);
   * the stdin record carries the md5 of all input read; buffered output holds
   * those same bytes, and standard input is never kept in `log.stdin`.
   */
  lemma ExecRecords(command: seq<string>, stdinChunks: Option<seq<Chunk>>, writeStdout: bool, ms: seq<Message>,
                    bufferOutput: bool, md5: seq<byte> -> Digest, sock: seq<Chunk>)
    requires Sendable(ms)
    requires Flatten(sock) == EncodeMessages(ms)
    ensures var r := Exec(command, stdinChunks, writeStdout, sock, bufferOutput, ExitCode(0), md5);
      && r.Success?
      && r.value.exitCode == Some(0)
      && (FileLog(StdoutPath, md5(Sent(ms, StdoutType))) in r.value.outFiles <==> writeStdout && Sent(ms, StdoutType) != [])
      && (FileLog(StderrPath, md5(Sent(ms, StderrType))) in r.value.outFiles <==> Sent(ms, StderrType) != [])
      && |r.value.outFiles| == (if writeStdout && Sent(ms, StdoutType) != [] then 1 else 0) + (if Sent(ms, StderrType) != [] then 1 else 0)
      && (stdinChunks.None? ==> r.value.inFiles == [])
      && (stdinChunks.Some? ==> (Flatten(stdinChunks.value) != [] <==> r.value.inFiles == [FileLog(StdinPath, md5(Flatten(stdinChunks.value)))]))
      && (stdinChunks.Some? && Flatten(stdinChunks.value) == [] ==> r.value.inFiles == [])
      && (bufferOutput ==> r.value.stdin == [] && r.value.stderr == Sent(ms, StderrType))
      && (bufferOutput && writeStdout ==> r.value.stdout == Sent(ms, StdoutType))
  {
    var o' := FreshDelivered(ms, writeStdout, bufferOutput);
    var stdin := if stdinChunks.Some? then Some(FeedStdin(Fresh, stdinChunks.value)) else None;
    if stdinChunks.Some? {
      FeedStdinAll(Fresh, stdinChunks.value);
      assert [] + Flatten(stdinChunks.value) == Flatten(stdinChunks.value);
    }
    assert Exec(command, stdinChunks, writeStdout, sock, bufferOutput, ExitCode(0), md5)
        == Success(ExecLog(command, ExitCode(0), bufferOutput, stdin, o'.stdout, o'.stderr, md5));
  }

  /**
   * Whatever the exit code, even a null one, buffered output holds exactly the
   * bytes the container sent on stdout (when captured) and stderr, and standard
   * input is never kept; unbuffered output keeps nothing.
   */
  lemma ExecBuffered(command: seq<string>, stdinChunks: Option<seq<Chunk>>, writeStdout: bool, ms: seq<Message>,
                     bufferOutput: bool, inspected: InspectedExit, md5: seq<byte> -> Digest, sock: seq<Chunk>)
    requires Sendable(ms)
    requires Flatten(sock) == EncodeMessages(ms)
    ensures Exec(command, stdinChunks, writeStdout, sock, bufferOutput, inspected, md5).Success?
    ensures var log := Exec(command, stdinChunks, writeStdout, sock, bufferOutput, inspected, md5).value;
      && log.exitCode == ExitCodeOf(inspected)
      && (bufferOutput ==> log.stdin == [] && log.stderr == Sent(ms, StderrType))
      && (bufferOutput && writeStdout ==> log.stdout == Sent(ms, StdoutType))
      && (!writeStdout ==> log.stdout == [])
      && (!bufferOutput ==> log.stdin == [] && log.stdout == [] && log.stderr == [])
  {
    var o' := FreshDelivered(ms, writeStdout, bufferOutput);
    var stdin := if stdinChunks.Some? then Some(FeedStdin(Fresh, stdinChunks.value)) else None;
    if stdinChunks.Some? {
      FeedStdinAll(Fresh, stdinChunks.value);
    }
    assert Exec(command, stdinChunks, writeStdout, sock, bufferOutput, inspected, md5)
        == Success(ExecLog(command, inspected, bufferOutput, stdin, o'.stdout, o'.stderr, md5));
  }

  /** What fresh output streams hold once the frames `ms` are demultiplexed. */
  lemma FreshDelivered(ms: seq<Message>, writeStdout: bool, bufferOutput: bool) returns (o': Outputs)
    requires Sendable(ms)
    ensures Demux(EncodeMessages(ms), Outputs(if writeStdout then Some(Fresh) else None, Fresh, bufferOutput)) == Success(o')
    ensures o'.stderr.hashed == Sent(ms, StderrType) && o'.stderr.dataLength == |Sent(ms, StderrType)|
    ensures bufferOutput ==> o'.stderr.raw == Sent(ms, StderrType)
    ensures o'.stdout.Some? <==> writeStdout
    ensures writeStdout ==> o'.stdout.value.hashed == Sent(ms, StdoutType) && o'.stdout.value.dataLength == |Sent(ms, StdoutType)|
    ensures writeStdout && bufferOutput ==> o'.stdout.value.raw == Sent(ms, StdoutType)
  {
    var o := Outputs(if writeStdout then Some(Fresh) else None, Fresh, bufferOutput);
    DemuxMessages(ms, o);
    o' := Demux(EncodeMessages(ms), o).value;
    assert [] + Sent(ms, StderrType) == Sent(ms, StderrType);
    assert [] + Sent(ms, StdoutType) == Sent(ms, StdoutType);
  }
}
