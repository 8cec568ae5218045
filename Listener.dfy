/** The socket listener of the browser bridge
    (`handle_websocket_connection` in dex-mcp-master/ws_server.py).

    Each accepted connection is installed as the active socket at once; its
    frames are read one after the other and either logged (debug logs, invalid
    JSON, handler errors) or passed to the registry's `handle_response`; when
    the read loop ends, the slot is emptied only if it still holds this socket. */
module Listener {
  import opened Common
  import opened Registry

  /** One text frame read from the socket: text that `json.loads` rejects,
      or the value it parsed. */
  datatype Frame = Malformed(raw: string) | Parsed(data: Json)

  /** What the read loop does with one frame. */
  datatype Handling =
    | DebugLog(logged: Json)                 // `[DEBUG_LOG]` logged, then `continue`
    | InvalidJson(raw: string)               // JSONDecodeError logged
    | HandlerError                           // any other exception logged
    | Response(message: map<string, Json>)   // handed to `handle_response`

  /** How the `async for` over the socket ends. */
  datatype LoopEnd = ClosedNormally | ConnectionClosed | OtherError

  datatype LogLine =
    | Connected
    | DebugLine(message: Json)
    | InvalidJsonLine(raw: string)
    | HandlerErrorLine
    | DisconnectedLine
    | SocketErrorLine

  /** Python raises TypeError when an unhashable id (a list or a dict) is
      looked up in the pending dict. */
  predicate Hashable(j: Json)
  {
    !j.JArr? && !j.JObj?
  }

  /** The body of the loop for one frame. A parsed value that is not a dict
      fails at `data.get`, a debug log whose payload is not a dict fails at
      `payload.get`, and a response whose id is unhashable fails inside
      `handle_response`; all three are logged as handler errors. */
  function Classify(frame: Frame): (h: Handling)
    ensures frame.Malformed? ==> h == InvalidJson(frame.raw)
    ensures h.Response? ==> frame == Parsed(JObj(h.message)) && Get(h.message, "type") != JStr("debug_log")
    ensures h.DebugLog? ==> frame.Parsed? && frame.data.JObj? && Get(frame.data.fields, "type") == JStr("debug_log")
    ensures (frame.Parsed? && frame.data.JObj? && Get(frame.data.fields, "type") != JStr("debug_log")
             && Hashable(Get(frame.data.fields, "id"))) ==> h == Response(frame.data.fields)
    ensures frame.Parsed? && !frame.data.JObj? ==> h == HandlerError
    ensures (frame.Parsed? && frame.data.JObj? && Get(frame.data.fields, "type") != JStr("debug_log")
             && !Hashable(Get(frame.data.fields, "id"))) ==> h == HandlerError
    ensures frame.Parsed? && frame.data.JObj? && Get(frame.data.fields, "type") == JStr("debug_log") ==>
      var fields := frame.data.fields;
      && ("payload" !in fields ==> h == DebugLog(JNull))
      && ("payload" in fields && fields["payload"].JObj? ==> h == DebugLog(Get(fields["payload"].fields, "message")))
      && ("payload" in fields && !fields["payload"].JObj? ==> h == HandlerError)
  {
    match frame
    case Malformed(raw) => InvalidJson(raw)
    case Parsed(data) =>
      if !data.JObj? then HandlerError
      else if Get(data.fields, "type") == JStr("debug_log") then
        var payload := if "payload" in data.fields then data.fields["payload"] else JObj(map[]);
        if payload.JObj? then DebugLog(Get(payload.fields, "message")) else HandlerError
      else if Hashable(Get(data.fields, "id")) then Response(data.fields)
      else HandlerError
  }

  /** The messages of a run of frames that reach `handle_response`, in order. */
  function Responses(frames: seq<Frame>): seq<map<string, Json>>
  {
    if frames == [] then []
    else
      var h := Classify(frames[0]);
      (if h.Response? then [h.message] else []) + Responses(frames[1..])
  }

  /** The log lines a run of frames produces. */
  function FrameLog(frames: seq<Frame>): seq<LogLine>
  {
    if frames == [] then []
    else LineFor(Classify(frames[0])) + FrameLog(frames[1..])
  }

  /** What one handled frame logs. */
  function LineFor(h: Handling): seq<LogLine>
  {
    match h
    case DebugLog(m) => [DebugLine(m)]
    case InvalidJson(raw) => [InvalidJsonLine(raw)]
    case HandlerError => [HandlerErrorLine]
    case Response(_) => []
  }

  /** The reading of frames streams: each frame is handled on its own, so the
      responses of two runs are those of each run, one after the other. */
  lemma {:induction false} ResponsesAppend(a: seq<Frame>, b: seq<Frame>)
    ensures Responses(a + b) == Responses(a) + Responses(b)
  {
    if a == [] {
      assert a + b == b;
    } else {
      assert (a + b)[0] == a[0] && (a + b)[1..] == a[1..] + b;
      ResponsesAppend(a[1..], b);
      var h := Classify(a[0]);
      var head := if h.Response? then [h.message] else [];
      assert Responses(a + b) == head + Responses(a[1..] + b);
      assert Responses(a) == head + Responses(a[1..]);
      assert head + (Responses(a[1..]) + Responses(b)) == (head + Responses(a[1..])) + Responses(b);
    }
  }

  /** No message of type "debug_log" ever reaches `handle_response`. */
  lemma {:induction false} NoDebugLogIsResolved(frames: seq<Frame>)
    ensures forall m :: m in Responses(frames) ==> Get(m, "type") != JStr("debug_log")
  {
    if frames != [] {
      NoDebugLogIsResolved(frames[1..]);
    }
  }

  /** Every parsed dict that is not a debug log and has a hashable id is
      passed to `handle_response` exactly once, in its place in the stream;
      every other frame passes nothing. */
  lemma OneFrame(f: Frame)
    ensures Classify(f).Response? ==> Responses([f]) == [Classify(f).message]
    ensures !Classify(f).Response? ==> Responses([f]) == []
  {
    assert [f][1..] == [];
  }

  /** The `finally` of the handler: the slot is emptied only if it still
      holds this socket. */
  function ClearIfCurrent(slot: Option<Socket>, socket: Socket): (next: Option<Socket>)
    ensures slot == Some(socket) ==> next == None
    ensures slot != Some(socket) ==> next == slot
  {
    if slot.Some? && slot.value == socket then None else slot
  }

  /** Last connected wins: after `b` replaced `a`, `a`'s teardown leaves `b`
      installed, and `b`'s own teardown empties the slot. */
  lemma StaleTeardownKeepsNewer(a: Socket, b: Socket)
    requires a != b
    ensures ClearIfCurrent(Some(b), a) == Some(b)
    ensures ClearIfCurrent(ClearIfCurrent(Some(b), a), b) == None
  {
  }

  /** A new connection is installed at once, replacing any other. */
  method Accept(ctx: Context, socket: Socket) returns (line: LogLine)
    modifies ctx`ws
    ensures ctx.ws == Some(socket)
    ensures line == Connected
  {
    ctx.SetWs(socket);
    line := Connected;
  }

  /** One iteration of the read loop. */
  method OnFrame(ctx: Context, frame: Frame) returns (log: seq<LogLine>)
    modifies ctx`pending
    ensures ctx.pending == ResolveAll(old(ctx.pending), Responses([frame]))
    ensures log == FrameLog([frame])
  {
    assert [frame][1..] == [];
    var h := Classify(frame);
    match h
    case DebugLog(m) =>
      log := [DebugLine(m)];
    case InvalidJson(raw) =>
      log := [InvalidJsonLine(raw)];
    case HandlerError =>
      log := [HandlerErrorLine];
    case Response(message) =>
      ctx.HandleResponse(message);
      log := [];
  }

  /** The `finally` of the handler. Pending calls are not touched: they wait
      for their own timeouts. */
  method Teardown(ctx: Context, socket: Socket)
    modifies ctx`ws
    ensures ctx.ws == ClearIfCurrent(old(ctx.ws), socket)
  {
    if ctx.HasWs() && ctx.ws.value == socket {
      ctx.ws := None;
    }
  }

  /** The `async for` over the frames of one connection, when no other task
      runs in between. */
  method ReadLoop(ctx: Context, frames: seq<Frame>) returns (log: seq<LogLine>)
    modifies ctx`pending
    ensures ctx.pending == ResolveAll(old(ctx.pending), Responses(frames))
    ensures log == FrameLog(frames)
  {
    log := [];
    ghost var start := ctx.pending;
    var i := 0;
    while i < |frames|
      invariant 0 <= i <= |frames|
      invariant ctx.pending == ResolveAll(start, Responses(frames[..i]))
      invariant log == FrameLog(frames[..i])
    {
      var lines := OnFrame(ctx, frames[i]);
      ServeStep(start, frames, i);
      log := log + lines;
      i := i + 1;
    }
    assert frames[..i] == frames;
  }

  /** The line logged when the loop ends. */
  function EndLine(end: LoopEnd): seq<LogLine>
  {
    match end
    case ClosedNormally => []
    case ConnectionClosed => [DisconnectedLine]
    case OtherError => [SocketErrorLine]
  }

  /** One whole connection when no other task runs in between: install the
      socket, feed every frame, log how the loop ended and tear down. */
  method Serve(ctx: Context, socket: Socket, frames: seq<Frame>, end: LoopEnd) returns (log: seq<LogLine>)
    modifies ctx`ws, ctx`pending
    ensures ctx.pending == ResolveAll(old(ctx.pending), Responses(frames))
    ensures ctx.ws == None
    ensures log == [Connected] + FrameLog(frames) + EndLine(end)
  {
    var first := Accept(ctx, socket);
    var lines := ReadLoop(ctx, frames);
    log := [first] + lines + EndLine(end);
    Teardown(ctx, socket);
  }

  /** Handling frame `i` extends the run of the first `i` frames. */
  lemma ServeStep(start: map<RequestId, Slot>, frames: seq<Frame>, i: nat)
    requires i < |frames|
    ensures ResolveAll(start, Responses(frames[..i + 1]))
         == ResolveAll(ResolveAll(start, Responses(frames[..i])), Responses([frames[i]]))
    ensures FrameLog(frames[..i + 1]) == FrameLog(frames[..i]) + FrameLog([frames[i]])
  {
    assert frames[..i + 1] == frames[..i] + [frames[i]];
    ResponsesAppend(frames[..i], [frames[i]]);
    FrameLogAppend(frames[..i], [frames[i]]);
    ResolveAllAppend(start, Responses(frames[..i]), Responses([frames[i]]));
  }

  lemma {:induction false} FrameLogAppend(a: seq<Frame>, b: seq<Frame>)
    ensures FrameLog(a + b) == FrameLog(a) + FrameLog(b)
  {
    if a == [] {
      assert a + b == b;
    } else {
      assert (a + b)[0] == a[0] && (a + b)[1..] == a[1..] + b;
      FrameLogAppend(a[1..], b);
      var line := LineFor(Classify(a[0]));
      assert FrameLog(a + b) == line + FrameLog(a[1..] + b);
      assert FrameLog(a) == line + FrameLog(a[1..]);
      assert line + (FrameLog(a[1..]) + FrameLog(b)) == (line + FrameLog(a[1..])) + FrameLog(b);
    }
  }

  lemma {:induction false} ResolveAllAppend(p: map<RequestId, Slot>, a: seq<map<string, Json>>, b: seq<map<string, Json>>)
    ensures ResolveAll(p, a + b) == ResolveAll(ResolveAll(p, a), b)
  {
    if a == [] {
      assert a + b == b;
    } else {
      assert (a + b)[0] == a[0] && (a + b)[1..] == a[1..] + b;
      ResolveAllAppend(Resolve(p, a[0]), a[1..], b);
    }
  }
}
