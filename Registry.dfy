/** The request/response correlation registry of the browser bridge
    (`Context` in dex-mcp-master/context.py).

    The registry holds one slot for the active socket and a map from request id
    to a single-assignment future. `send_socket_message` is an `async` function
    that suspends until its future is complete; here its run is split into the
    discrete steps that the event loop interleaves:
      Begin         check the connection, register the future, write the frame;
      HandleResponse  an inbound response completes a waiting future;
      TimeoutFires  `asyncio.wait_for` gives up and cancels the future;
      Finish        the suspended call resumes, pops its entry and returns or raises. */
module Registry {
  import opened Common

  type RequestId = string

  /** The identity of a socket; the listener compares sockets by identity. */
  type Socket = nat

  /** The state of the future registered for one request. `Done` and
      `Cancelled` are the two states in which `future.done()` is true. */
  datatype Slot = Waiting | Done(response: map<string, Json>) | Cancelled

  /** What the registry itself does to sockets: write a frame, or close one. */
  datatype WireEvent = Sent(socket: Socket, frame: map<string, Json>) | Closed(socket: Socket)

  /** The exceptions `send_socket_message` raises. */
  datatype SendError =
    | NotConnected           // no socket installed when the call starts
    | WriteFailed            // `ws.send` itself raised
    | RemoteError(error: Json) // the response carried an "error" key
    | Timeout                // no response before the timeout

  datatype Outcome = Returned(value: Json) | Raised(error: SendError)

  const NoConnectionMessage: string :=
    "No connection to browser extension. Please connect your browser extension first."

  /** The outbound request `{id, type, payload}`; a missing payload is sent as `{}`. */
  function Envelope(id: RequestId, messageType: string, payload: Option<map<string, Json>>): (frame: map<string, Json>)
    ensures frame.Keys == {"id", "type", "payload"}
    ensures frame["id"] == JStr(id) && frame["type"] == JStr(messageType)
    ensures payload.None? ==> frame["payload"] == JObj(map[])
    ensures payload.Some? ==> frame["payload"] == JObj(payload.value)
  {
    var body := if payload.Some? then payload.value else map[];
    map["id" := JStr(id), "type" := JStr(messageType), "payload" := JObj(body)]
  }

  /** The value or exception of a call whose future is complete: a response
      holding an "error" key raises with that error, whatever its value;
      otherwise the call returns `response.get("result")`. A cancelled future
      is the timeout. */
  function Conclude(slot: Slot): (outcome: Outcome)
    requires !slot.Waiting?
    ensures slot.Cancelled? ==> outcome == Raised(Timeout)
    ensures slot.Done? && "error" in slot.response ==> outcome == Raised(RemoteError(slot.response["error"]))
    ensures slot.Done? && "error" !in slot.response && "result" in slot.response ==> outcome == Returned(slot.response["result"])
    ensures slot.Done? && "error" !in slot.response && "result" !in slot.response ==> outcome == Returned(JNull)
    ensures outcome.Raised? ==> outcome.error.RemoteError? || outcome.error.Timeout?
  {
    match slot
    case Done(response) =>
      if "error" in response then Raised(RemoteError(response["error"]))
      else Returned(Get(response, "result"))
    case Cancelled => Raised(Timeout)
  }

  /** The request id a response names, if it is a string (`message.get("id")`). */
  function ResponseId(message: map<string, Json>): Option<RequestId>
  {
    if "id" in message && message["id"].JStr? then Some(message["id"].s) else None
  }

  /** `handle_response` on the pending map: the future under the message's id
      is completed with the message if it exists and is not already done. */
  function Resolve(pending: map<RequestId, Slot>, message: map<string, Json>): (next: map<RequestId, Slot>)
    ensures next.Keys == pending.Keys
    ensures forall id :: id in pending && Some(id) != ResponseId(message) ==> next[id] == pending[id]
    ensures forall id :: id in pending && !pending[id].Waiting? ==> next[id] == pending[id]
    ensures forall id :: id in pending && pending[id].Waiting? && Some(id) == ResponseId(message) ==> next[id] == Done(message)
  {
    var id := ResponseId(message);
    if id.Some? && id.value in pending && pending[id.value].Waiting? then
      pending[id.value := Done(message)]
    else pending
  }

  /** The timeout of `asyncio.wait_for` cancels the future if it is still waiting. */
  function Expire(pending: map<RequestId, Slot>, id: RequestId): (next: map<RequestId, Slot>)
    ensures next.Keys == pending.Keys
    ensures forall other :: other in pending && other != id ==> next[other] == pending[other]
    ensures id in pending && pending[id].Waiting? ==> next[id] == Cancelled
    ensures id in pending && !pending[id].Waiting? ==> next[id] == pending[id]
  {
    if id in pending && pending[id].Waiting? then pending[id := Cancelled] else pending
  }

  /** The responses of a sequence handed to `handle_response` one after the other. */
  function ResolveAll(pending: map<RequestId, Slot>, messages: seq<map<string, Json>>): map<RequestId, Slot>
  {
    if messages == [] then pending
    else ResolveAll(Resolve(pending, messages[0]), messages[1..])
  }

  /** The first message of the sequence that names `id`. */
  function FirstFor(messages: seq<map<string, Json>>, id: RequestId): Option<map<string, Json>>
  {
    if messages == [] then None
    else if ResponseId(messages[0]) == Some(id) then Some(messages[0])
    else FirstFor(messages[1..], id)
  }

  /** Whatever responses arrive, the key set of the pending map stays the same,
      a future that was already complete is untouched, and a waiting future ends
      up holding the FIRST response naming its id (later duplicates are ignored),
      or is still waiting if none names it. */
  lemma {:induction false} ResolveAllFirstWins(pending: map<RequestId, Slot>, messages: seq<map<string, Json>>, id: RequestId)
    requires id in pending
    ensures ResolveAll(pending, messages).Keys == pending.Keys
    ensures !pending[id].Waiting? ==> ResolveAll(pending, messages)[id] == pending[id]
    ensures pending[id].Waiting? && FirstFor(messages, id).None? ==> ResolveAll(pending, messages)[id] == Waiting
    ensures pending[id].Waiting? && FirstFor(messages, id).Some? ==> ResolveAll(pending, messages)[id] == Done(FirstFor(messages, id).value)
  {
    if messages != [] {
      var next := Resolve(pending, messages[0]);
      ResolveAllFirstWins(next, messages[1..], id);
    }
  }

  /** Responses to distinct requests may arrive in either order: the pending
      map ends the same, so each caller sees its own response. */
  lemma ResolveCommutes(pending: map<RequestId, Slot>, m1: map<string, Json>, m2: map<string, Json>)
    requires ResponseId(m1) != ResponseId(m2)
    ensures Resolve(Resolve(pending, m1), m2) == Resolve(Resolve(pending, m2), m1)
  {
  }

  /** A response for an id that has no future (never sent, already finished
      or timed out and popped) changes nothing; no error is raised. */
  lemma ResolveUnknownIsNoop(pending: map<RequestId, Slot>, message: map<string, Json>)
    requires ResponseId(message).None? || ResponseId(message).value !in pending
    ensures Resolve(pending, message) == pending
  {
  }

  /** The happy path of one call, from registration to return: the response
      decides the outcome, and the pending map is left as it was before the call. */
  lemma {:induction false} RequestLifecycle(pending: map<RequestId, Slot>, id: RequestId, response: map<string, Json>)
    requires id !in pending && ResponseId(response) == Some(id)
    ensures var done := Resolve(pending[id := Waiting], response);
      && id in done && done[id] == Done(response)
      && Conclude(done[id]) == (if "error" in response then Raised(RemoteError(response["error"])) else Returned(Get(response, "result")))
      && done - {id} == pending
  {
    var done := Resolve(pending[id := Waiting], response);
    assert done == pending[id := Done(response)];
    assert done - {id} == pending;
  }

  /** The timeout path: once the future is cancelled and popped, the call
      raises Timeout, the map is as before, and a late response is a no-op. */
  lemma {:induction false} TimeoutLifecycle(pending: map<RequestId, Slot>, id: RequestId, late: map<string, Json>)
    requires id !in pending && ResponseId(late) == Some(id)
    ensures var expired := Expire(pending[id := Waiting], id);
      && Conclude(expired[id]) == Raised(Timeout)
      && expired - {id} == pending
      && Resolve(expired - {id}, late) == expired - {id}
  {
    var expired := Expire(pending[id := Waiting], id);
    assert expired == pending[id := Cancelled];
    assert expired - {id} == pending;
  }

  /** The registry of one server process. */
  class Context {
    /** `_ws`: the active socket, if any. */
    var ws: Option<Socket>
    /** `_pending_requests`: the future of every call that has not finished. */
    var pending: map<RequestId, Slot>
    /** What the registry has written to or closed on sockets, in order. */
    var wire: seq<WireEvent>
    /** Every request id handed out so far (the UUID generator never repeats). */
    ghost var used: set<RequestId>

    ghost predicate Valid()
      reads this
    {
      pending.Keys <= used
    }

    constructor ()
      ensures Valid()
      ensures ws == None && pending == map[] && wire == [] && used == {}
    {
      ws := None;
      pending := map[];
      wire := [];
      used := {};
    }

    /** `set_ws`: install the socket, replacing the old one without closing it. */
    method SetWs(socket: Socket)
      modifies this`ws
      ensures ws == Some(socket)
    {
      ws := Some(socket);
    }

    /** `has_ws`. */
    function HasWs(): (r: bool)
      reads this
      ensures r <==> ws != None
    {
      ws.Some?
    }

    /** The `ws` property: the active socket, or the "No connection" error. */
    method ActiveSocket() returns (r: Result<Socket>)
      ensures r.Ok? <==> ws.Some?
      ensures r.Ok? ==> r.value == ws.value
      ensures r.Err? ==> r.message == NoConnectionMessage
    {
      if ws.None? {
        return Err(NoConnectionMessage);
      }
      return Ok(ws.value);
    }

    /** The synchronous start of `send_socket_message`, up to the first wait
        for the response. `freshId` is the next UUID; `writeOk` says whether
        `ws.send` succeeds. `r` is None when the call is now suspended waiting
        for its response, and the raised outcome when it has already ended. */
    method Begin(messageType: string, payload: Option<map<string, Json>>, freshId: RequestId, writeOk: bool)
      returns (r: Option<Outcome>)
      requires Valid() && freshId !in used
      modifies this`pending, this`wire, this`used
      ensures Valid()
      ensures old(ws).None? ==>
        r == Some(Raised(NotConnected)) && pending == old(pending) && wire == old(wire) && used == old(used)
      ensures old(ws).Some? && writeOk ==>
        && r.None?
        && pending == old(pending)[freshId := Waiting]
        && wire == old(wire) + [Sent(old(ws).value, Envelope(freshId, messageType, payload))]
        && used == old(used) + {freshId}
      ensures old(ws).Some? && !writeOk ==>
        r == Some(Raised(WriteFailed)) && pending == old(pending) && wire == old(wire) && used == old(used) + {freshId}
    {
      if !HasWs() {
        return Some(Raised(NotConnected));
      }
      var id := freshId;
      used := used + {id};
      var message := Envelope(id, messageType, payload);
      pending := pending[id := Waiting];
      var socket := ActiveSocket();
      if !writeOk {
        // the exception propagates through the `finally`, which pops the entry
        pending := pending - {id};
        return Some(Raised(WriteFailed));
      }
      wire := wire + [Sent(socket.value, message)];
      return None;
    }

    /** `handle_response`. */
    method HandleResponse(message: map<string, Json>)
      modifies this`pending
      ensures pending == Resolve(old(pending), message)
    {
      var id := ResponseId(message);
      if id.Some? && id.value in pending {
        var slot := pending[id.value];
        if slot.Waiting? {
          pending := pending[id.value := Done(message)];
        }
      }
    }

    /** The timeout of the call waiting on `id` elapses. */
    method TimeoutFires(id: RequestId)
      modifies this`pending
      ensures pending == Expire(old(pending), id)
    {
      if id in pending && pending[id].Waiting? {
        pending := pending[id := Cancelled];
      }
    }

    /** The suspended call resumes once its future is complete: the `finally`
        pops its entry and the call returns or raises as `Conclude` says. */
    method Finish(id: RequestId) returns (outcome: Outcome)
      requires id in pending && !pending[id].Waiting?
      modifies this`pending
      ensures outcome == Conclude(old(pending)[id])
      ensures pending == old(pending) - {id}
    {
      var slot := pending[id];
      pending := pending - {id};
      match slot
      case Done(response) =>
        if "error" in response {
          outcome := Raised(RemoteError(response["error"]));
        } else {
          outcome := Returned(Get(response, "result"));
        }
      case Cancelled =>
        outcome := Raised(Timeout);
    }

    /** `close`: close the active socket, if any, and empty the slot. Pending
        calls are left to their own timeouts. */
    method Close()
      modifies this`ws, this`wire
      ensures old(ws).Some? ==> ws == None && wire == old(wire) + [Closed(old(ws).value)]
      ensures old(ws).None? ==> ws == None && wire == old(wire)
    {
      if ws.Some? {
        wire := wire + [Closed(ws.value)];
        ws := None;
      }
    }
  }
}
