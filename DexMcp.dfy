/** The Node side of the browser bridge (`DexMCPService` in
    backend/services/dexMCP.js): a client socket with a connection flag, a map
    of outstanding command promises keyed by request id, and the sequential
    spreadsheet-filling routine built on `sendCommand`.

    A promise is modelled by its settlement: a request id is in `pending`
    while its `{resolve, reject}` pair is in the map, and in `settled` once it
    was resolved with a message or rejected with a reason. */
module DexMcp {
  import opened Common

  type RequestId = string

  datatype Settlement = Resolved(message: map<string, Json>) | Rejected(reason: string)

  const NotConnectedMessage: string := "Not connected to Dex MCP WebSocket"
  const TimeoutMessage: string := "Request timeout"

  /** The message `sendCommand` writes, `{id, action, ...params}`: the
      parameters are spread after `id` and `action`, so a parameter of either
      name replaces it. */
  function CommandMessage(id: RequestId, action: string, params: map<string, Json>): (m: map<string, Json>)
    ensures m.Keys == {"id", "action"} + params.Keys
    ensures "id" !in params ==> m["id"] == JStr(id)
    ensures "action" !in params ==> m["action"] == JStr(action)
    ensures forall k :: k in params ==> m[k] == params[k]
  {
    map["id" := JStr(id), "action" := JStr(action)] + params
  }

  /** The id `handleMessage` looks up: a truthy `message.id` that can equal a
      key of the map, i.e. a non-empty string. Anything that is not an object
      has no usable id. */
  function MessageId(message: Json): Option<RequestId>
  {
    if message.JObj? && "id" in message.fields && Truthy(message.fields["id"]) && message.fields["id"].JStr?
    then Some(message.fields["id"].s)
    else None
  }

  class DexMcpService {
    /** Set on the socket's `open` event, cleared on `close` and `error`. */
    var isConnected: bool
    /** The keys of `pendingRequests`. */
    var pending: set<RequestId>
    /** How each command promise settled. */
    var settled: map<RequestId, Settlement>
    /** The messages written to the socket, in order. */
    var wire: seq<map<string, Json>>
    /** Every id `uuidv4` has produced so far. */
    ghost var used: set<RequestId>

    /** Every outstanding id was handed out, and no promise is both
        outstanding and settled. */
    ghost predicate Valid()
      reads this
    {
      pending <= used && settled.Keys <= used && pending !! settled.Keys
    }

    constructor ()
      ensures Valid()
      ensures !isConnected && pending == {} && settled == map[] && wire == [] && used == {}
    {
      isConnected := false;
      pending := {};
      settled := map[];
      wire := [];
      used := {};
    }

    /** The socket's `open` event. */
    method OnOpen()
      modifies this`isConnected
      ensures isConnected
    {
      isConnected := true;
    }

    /** The socket's `close` event; outstanding commands keep waiting for their timers. */
    method OnClose()
      modifies this`isConnected
      ensures !isConnected
    {
      isConnected := false;
    }

    /** The socket's `error` event. */
    method OnError()
      modifies this`isConnected
      ensures !isConnected
    {
      isConnected := false;
    }

    /** `handleMessage`: an outstanding id is deleted from the map and its
        promise resolved with the message; anything else is ignored. A promise
        that has settled is never settled again. */
    method HandleMessage(message: Json)
      requires Valid()
      modifies this`pending, this`settled
      ensures Valid()
      ensures var id := MessageId(message);
        if id.Some? && id.value in old(pending) then
          pending == old(pending) - {id.value} && settled == old(settled)[id.value := Resolved(message.fields)]
        else
          pending == old(pending) && settled == old(settled)
      ensures forall id :: id in old(settled) ==> id in settled && settled[id] == old(settled)[id]
    {
      var id := MessageId(message);
      if id.Some? && id.value in pending {
        pending := pending - {id.value};
        settled := settled[id.value := Resolved(message.fields)];
      }
    }

    /** `sendCommand` up to its wait: refuse when not connected, otherwise
        register the fresh id and write the message. `freshId` is the next
        `uuidv4()`. The result is the id whose promise the caller awaits. */
    method SendCommand(action: string, params: map<string, Json>, freshId: RequestId) returns (r: Result<RequestId>)
      requires Valid() && freshId !in used && freshId != ""
      modifies this`pending, this`wire, this`used
      ensures Valid()
      ensures !old(isConnected) ==>
        r == Err(NotConnectedMessage) && pending == old(pending) && wire == old(wire) && used == old(used)
      ensures old(isConnected) ==>
        && r == Ok(freshId)
        && pending == old(pending) + {freshId}
        && wire == old(wire) + [CommandMessage(freshId, action, params)]
        && used == old(used) + {freshId}
    {
      if !isConnected {
        return Err(NotConnectedMessage);
      }
      var id := freshId;
      used := used + {id};
      var message := CommandMessage(id, action, params);
      pending := pending + {id};
      wire := wire + [message];
      return Ok(id);
    }

    /** The 30-second timer of the command `id`: it rejects only if the entry
        is still in the map, so after a resolution it does nothing. */
    method TimerFires(id: RequestId)
      requires Valid()
      modifies this`pending, this`settled
      ensures Valid()
      ensures id in old(pending) ==>
        pending == old(pending) - {id} && settled == old(settled)[id := Rejected(TimeoutMessage)]
      ensures id !in old(pending) ==> pending == old(pending) && settled == old(settled)
      ensures forall other :: other in old(settled) ==> other in settled && settled[other] == old(settled)[other]
    {
      if id in pending {
        pending := pending - {id};
        settled := settled[id := Rejected(TimeoutMessage)];
      }
    }
  }

  // ---------------------------------------------------------------------
  // fillSpreadsheetData

  /** One entry of the data to fill in: the cell's element id and its value. */
  datatype CellWrite = CellWrite(cellId: Json, value: Json)

  /** The commands the filling loop awaits, one per `sendCommand` call. */
  datatype Command = Click(elementId: Json) | TypeText(elementId: Json, text: Json) | PressEnter

  /** How one awaited `sendCommand` ends: its promise resolves with a message,
      or rejects (not connected, timeout). */
  datatype Reply = Answered(message: map<string, Json>) | Failed(reason: string)

  datatype RowResult = RowResult(cellId: Json, success: bool, error: Option<string>)

  /** `{success: true, results}` or `{success: false, error}`. */
  datatype FillOutcome = Filled(results: seq<RowResult>) | FillFailed(error: string)

  const CellNotFound: string := "Cell not found"

  /** The `action` each command is sent with. */
  function Action(c: Command): string
  {
    match c
    case Click(_) => "click_element"
    case TypeText(_, _) => "input_text"
    case PressEnter => "send_keys"
  }

  /** The `params` each command is sent with. */
  function Params(c: Command): map<string, Json>
  {
    match c
    case Click(id) => map["element_id" := id]
    case TypeText(id, text) => map["element_id" := id, "text" := text]
    case PressEnter => map["keys" := JStr("Enter")]
  }

  /** `cellResult.result?.success` is truthy. */
  predicate ClickSucceeded(message: map<string, Json>)
  {
    "result" in message && message["result"].JObj?
    && "success" in message["result"].fields && Truthy(message["result"].fields["success"])
  }

  /** The settlement of the `k`-th awaited command. Every command promise
      settles: when no response is given, its timer rejects it. */
  function ReplyAt(replies: seq<Reply>, k: nat): Reply
  {
    if k < |replies| then replies[k] else Failed(TimeoutMessage)
  }

  /** The commands issued for one row, starting at reply `k`, and what the
      row records or the error that aborts the loop. */
  datatype RowRun = RowRun(commands: seq<Command>, result: Result<RowResult>)

  /** Some command awaited at replies `k`..`k + n - 1` was rejected. */
  predicate RejectedAmong(replies: seq<Reply>, k: nat, n: nat)
  {
    exists p :: k <= p < k + n && ReplyAt(replies, p).Failed?
  }

  /** One row: a rejected click aborts with its error; a click without a
      truthy `result.success` records "Cell not found"; a successful click is
      followed by `input_text` and Enter, and the row aborts exactly when one
      of those two is rejected. Whatever happens, the row aborts exactly when
      one of its commands was rejected, and then with the error of the last
      command sent, which is the first one rejected. */
  function FillRow(w: CellWrite, replies: seq<Reply>, k: nat): (run: RowRun)
    ensures 1 <= |run.commands| <= 3 && run.commands[0] == Click(w.cellId)
    ensures run.commands == [Click(w.cellId), TypeText(w.cellId, w.value), PressEnter][..|run.commands|]
    ensures ReplyAt(replies, k).Failed? ==> run == RowRun([Click(w.cellId)], Err(ReplyAt(replies, k).reason))
    ensures ReplyAt(replies, k).Answered? && ClickSucceeded(ReplyAt(replies, k).message) ==>
      && |run.commands| >= 2 && run.commands[1] == TypeText(w.cellId, w.value)
      && (run.result.Err? <==> ReplyAt(replies, k + 1).Failed? || ReplyAt(replies, k + 2).Failed?)
    ensures |run.commands| > 1 ==> ReplyAt(replies, k).Answered? && ClickSucceeded(ReplyAt(replies, k).message)
    ensures run.result.Err? <==> RejectedAmong(replies, k, |run.commands|)
    ensures run.result.Err? ==> !RejectedAmong(replies, k, |run.commands| - 1)
    ensures run.result.Ok? ==> run.result.value.cellId == w.cellId
    ensures run.result.Ok? && run.result.value.success ==>
      run.result.value.error.None? && run.commands == [Click(w.cellId), TypeText(w.cellId, w.value), PressEnter]
    ensures run.result.Ok? && !run.result.value.success ==>
      run.result.value.error == Some(CellNotFound) && run.commands == [Click(w.cellId)]
    ensures run.result.Err? ==> ReplyAt(replies, k + |run.commands| - 1) == Failed(run.result.message)
  {
    match ReplyAt(replies, k)
    case Failed(e) => RowRun([Click(w.cellId)], Err(e))
    case Answered(m) =>
      if !ClickSucceeded(m) then
        RowRun([Click(w.cellId)], Ok(RowResult(w.cellId, false, Some(CellNotFound))))
      else match ReplyAt(replies, k + 1)
        case Failed(e) => RowRun([Click(w.cellId), TypeText(w.cellId, w.value)], Err(e))
        case Answered(_) =>
          match ReplyAt(replies, k + 2)
          case Failed(e) => RowRun([Click(w.cellId), TypeText(w.cellId, w.value), PressEnter], Err(e))
          case Answered(_) => RowRun([Click(w.cellId), TypeText(w.cellId, w.value), PressEnter], Ok(RowResult(w.cellId, true, None)))
  }

  datatype FillRun = FillRun(commands: seq<Command>, outcome: FillOutcome)

  /** The rows done so far in front of the run of the remaining rows. */
  function Prefix(commands: seq<Command>, results: seq<RowResult>, rest: FillRun): FillRun
  {
    FillRun(commands + rest.commands,
            if rest.outcome.Filled? then Filled(results + rest.outcome.results) else rest.outcome)
  }

  /** The whole loop from row `i` and reply `k` on: each row's commands in
      turn; a row that throws ends everything with its error. On success there
      is one result per remaining row, for that row's cell, in input order. */
  function FillFrom(rows: seq<CellWrite>, replies: seq<Reply>, i: nat, k: nat): (run: FillRun)
    requires i <= |rows|
    decreases |rows| - i
    ensures run.outcome.Filled? ==>
      |run.outcome.results| == |rows| - i
      && forall j :: 0 <= j < |run.outcome.results| ==> run.outcome.results[j].cellId == rows[i + j].cellId
    ensures i == |rows| ==> run == FillRun([], Filled([]))
  {
    if i == |rows| then FillRun([], Filled([]))
    else
      var row := FillRow(rows[i], replies, k);
      match row.result
      case Err(e) => FillRun(row.commands, FillFailed(e))
      case Ok(result) => Prefix(row.commands, [result], FillFrom(rows, replies, i + 1, k + |row.commands|))
  }

  /** A recorded row either succeeded with no error, or failed with
      "Cell not found". */
  predicate Explained(r: RowResult)
  {
    (r.success <==> r.error.None?) && (!r.success ==> r.error == Some(CellNotFound))
  }

  lemma PrefixExplained(commands: seq<Command>, r: RowResult, rest: FillRun)
    requires Explained(r)
    requires rest.outcome.Filled? ==> forall x :: x in rest.outcome.results ==> Explained(x)
    ensures var run := Prefix(commands, [r], rest);
      run.outcome.Filled? ==> forall x :: x in run.outcome.results ==> Explained(x)
  {
  }

  /** Every row whose click did not succeed records "Cell not found", and only
      rows whose click succeeded are followed by `input_text` and `Enter`. */
  lemma {:induction false} FillResultsExplained(rows: seq<CellWrite>, replies: seq<Reply>, i: nat, k: nat)
    requires i <= |rows|
    decreases |rows| - i
    ensures var run := FillFrom(rows, replies, i, k);
      run.outcome.Filled? ==> forall r :: r in run.outcome.results ==> Explained(r)
  {
    if i < |rows| {
      var row := FillRow(rows[i], replies, k);
      if row.result.Ok? {
        FillResultsExplained(rows, replies, i + 1, k + |row.commands|);
        var rest := FillFrom(rows, replies, i + 1, k + |row.commands|);
        assert FillFrom(rows, replies, i, k) == Prefix(row.commands, [row.result.value], rest);
        PrefixExplained(row.commands, row.result.value, rest);
      }
    }
  }

  /** A rejection among `n1 + n2` awaited commands is one among the first
      `n1` or among the `n2` after them. */
  lemma RejectedAmongSplit(replies: seq<Reply>, k: nat, n1: nat, n2: nat)
    ensures RejectedAmong(replies, k, n1 + n2) <==> RejectedAmong(replies, k, n1) || RejectedAmong(replies, k + n1, n2)
  {
    if RejectedAmong(replies, k, n1 + n2) {
      var p :| k <= p < k + n1 + n2 && ReplyAt(replies, p).Failed?;
      if p >= k + n1 {
        assert RejectedAmong(replies, k + n1, n2);
      }
    }
  }

  /** A thrown error aborts the loop: the outcome is a failure exactly when
      one of the commands sent was rejected, the failure carries the error of
      the last command sent, and that command is the first one rejected, so
      no command is sent after a rejection; a run that does not fail sends at
      least one command per row. */
  lemma {:induction false} FillAbortsOnError(rows: seq<CellWrite>, replies: seq<Reply>, i: nat, k: nat)
    requires i <= |rows|
    decreases |rows| - i
    ensures var run := FillFrom(rows, replies, i, k);
      run.outcome.FillFailed? <==> RejectedAmong(replies, k, |run.commands|)
    ensures var run := FillFrom(rows, replies, i, k);
      run.outcome.FillFailed? ==> ReplyAt(replies, k + |run.commands| - 1) == Failed(run.outcome.error)
    ensures var run := FillFrom(rows, replies, i, k);
      run.outcome.FillFailed? ==> !RejectedAmong(replies, k, |run.commands| - 1)
    ensures var run := FillFrom(rows, replies, i, k);
      |run.commands| >= |rows| - i || run.outcome.FillFailed?
  {
    if i < |rows| {
      var row := FillRow(rows[i], replies, k);
      var run := FillFrom(rows, replies, i, k);
      if row.result.Ok? {
        var next := k + |row.commands|;
        FillAbortsOnError(rows, replies, i + 1, next);
        var rest := FillFrom(rows, replies, i + 1, next);
        assert run == Prefix(row.commands, [row.result.value], rest);
        assert |run.commands| == |row.commands| + |rest.commands|;
        assert run.outcome.FillFailed? <==> rest.outcome.FillFailed?;
        assert run.outcome.FillFailed? ==> rest.outcome == run.outcome;
        RejectedAmongSplit(replies, k, |row.commands|, |rest.commands|);
        if run.outcome.FillFailed? {
          RejectedAmongSplit(replies, k, |row.commands|, |rest.commands| - 1);
        }
      } else {
        assert run == FillRun(row.commands, FillFailed(row.result.message));
      }
    }
  }

  lemma PrefixPrefix(c1: seq<Command>, r1: seq<RowResult>, c2: seq<Command>, r2: seq<RowResult>, rest: FillRun)
    ensures Prefix(c1, r1, Prefix(c2, r2, rest)) == Prefix(c1 + c2, r1 + r2, rest)
  {
    assert c1 + (c2 + rest.commands) == (c1 + c2) + rest.commands;
    if rest.outcome.Filled? {
      assert r1 + (r2 + rest.outcome.results) == (r1 + r2) + rest.outcome.results;
    }
  }

  /** The loop as it runs: the commands and results so far, then the rows
      from `i` on. */
  function FillAcc(rows: seq<CellWrite>, replies: seq<Reply>, i: nat, k: nat,
                   commands: seq<Command>, results: seq<RowResult>): FillRun
    requires i <= |rows|
    decreases |rows| - i
  {
    if i == |rows| then FillRun(commands, Filled(results))
    else
      var row := FillRow(rows[i], replies, k);
      match row.result
      case Err(e) => FillRun(commands + row.commands, FillFailed(e))
      case Ok(r) => FillAcc(rows, replies, i + 1, k + |row.commands|, commands + row.commands, results + [r])
  }

  /** The running loop ends as the rows done so far put in front of the rest. */
  lemma {:induction false} FillAccIsPrefix(rows: seq<CellWrite>, replies: seq<Reply>, i: nat, k: nat,
                                           commands: seq<Command>, results: seq<RowResult>)
    requires i <= |rows|
    decreases |rows| - i
    ensures FillAcc(rows, replies, i, k, commands, results) == Prefix(commands, results, FillFrom(rows, replies, i, k))
  {
    if i == |rows| {
      assert commands + [] == commands && results + [] == results;
    } else {
      var row := FillRow(rows[i], replies, k);
      if row.result.Ok? {
        var next := k + |row.commands|;
        FillAccIsPrefix(rows, replies, i + 1, next, commands + row.commands, results + [row.result.value]);
        PrefixPrefix(commands, results, row.commands, [row.result.value], FillFrom(rows, replies, i + 1, next));
      }
    }
  }

  /** The body of the loop for one row: click, and when the click succeeded,
      type the value and press Enter. */
  method FillOneRow(w: CellWrite, replies: seq<Reply>, k: nat) returns (commands: seq<Command>, result: Result<RowResult>)
    ensures RowRun(commands, result) == FillRow(w, replies, k)
  {
    commands := [Click(w.cellId)];
    var cellResult := ReplyAt(replies, k);
    if cellResult.Failed? {
      return commands, Err(cellResult.reason);
    }
    if !ClickSucceeded(cellResult.message) {
      return commands, Ok(RowResult(w.cellId, false, Some(CellNotFound)));
    }
    commands := commands + [TypeText(w.cellId, w.value)];
    var typed := ReplyAt(replies, k + 1);
    if typed.Failed? {
      return commands, Err(typed.reason);
    }
    commands := commands + [PressEnter];
    var entered := ReplyAt(replies, k + 2);
    if entered.Failed? {
      return commands, Err(entered.reason);
    }
    return commands, Ok(RowResult(w.cellId, true, None));
  }

  /** `fillSpreadsheetData`: a loop over the rows that awaits each command in
      turn; `replies` gives, in order, how each awaited command settles. */
  method FillSpreadsheetData(rows: seq<CellWrite>, replies: seq<Reply>) returns (commands: seq<Command>, outcome: FillOutcome)
    ensures FillRun(commands, outcome) == FillFrom(rows, replies, 0, 0)
  {
    commands := [];
    var results: seq<RowResult> := [];
    var k: nat := 0;
    var i := 0;
    while i < |rows|
      invariant 0 <= i <= |rows|
      invariant FillAcc(rows, replies, i, k, commands, results) == FillAcc(rows, replies, 0, 0, [], [])
    {
      var rowCommands, result := FillOneRow(rows[i], replies, k);
      if result.Err? {
        FillAccIsPrefix(rows, replies, 0, 0, [], []);
        return commands + rowCommands, FillFailed(result.message);
      }
      commands := commands + rowCommands;
      results := results + [result.value];
      k := k + |rowCommands|;
      i := i + 1;
    }
    FillAccIsPrefix(rows, replies, 0, 0, [], []);
    outcome := Filled(results);
  }
}
