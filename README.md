# Resonance browser bridge and survey front end, modelled in Dafny

Resonance places AI voice-survey calls to lists of customers. This project models the parts of it that hold state or transform data:

- **The browser bridge.** The Python MCP server keeps a registry (`Context`) of the one active browser-extension socket. It also keeps a map from request id to a single-assignment future. `send_socket_message` registers a future, writes `{id, type, payload}` and waits for the matching response or a timeout. The socket listener installs every new connection, routes each inbound frame, and on teardown empties the slot only if it still holds its own socket.
- **The Node client of the same bridge** (`DexMCPService`). It has a connection flag and a map of outstanding command promises. `sendCommand` registers and writes a command, `handleMessage` resolves a promise, and a 30-second timer rejects it. `fillSpreadsheetData` awaits click, type and Enter commands row by row.
- **The spreadsheet parser.** It finds the phone column, cleans phone numbers, builds contacts with their extra columns, and splits a block of text into numbered questions.
- **The front-end forms:**
  - US phone formatting and validation on the test-call page;
  - the editable question lists of four pages;
  - campaign validation, reset and status update;
  - header normalisation and row re-keying on the upload page;
  - the call-history filter and status styling.

Module by module:

| module | models |
|---|---|
| `Registry` | `Context` (dex-mcp-master/context.py) |
| `Listener` | `handle_websocket_connection` (dex-mcp-master/ws_server.py) |
| `DexMcp` | `DexMCPService` (backend/services/dexMCP.js) |
| `SpreadsheetParser` | backend/services/spreadsheetParser.js |
| `QuestionList` | the question list shared by TestCall.js and CampaignManager.js |
| `TestCall`, `CampaignManager`, `CallHistory` | frontend/src/pages/ |
| `Leads`, `StartSurvey`, `NewSurvey` | leads, start-survey and surveys/new under frontend/src/app/ |
| `Common`, `Text` | JSON values, JavaScript truthiness, and the string operations the code uses (`trim`, `\s`, `\d`, `toLowerCase` for ASCII, `includes`, `split`, `String(n)`) |

**How state and suspension are modelled.**

- `Registry.Context` and `DexMcp.DexMcpService` are classes whose methods update their fields in place. The listener's per-frame and per-connection routines, the parser's loops, the row re-keying and `fillSpreadsheetData` are methods with loops.
- Each such method is proved against a function. Examples: `pending == Resolve(old(pending), message)`, and `FillRun(commands, outcome) == FillFrom(rows, replies, 0, 0)`. The properties are then proved about those functions as lemmas.
- An `await` splits an operation into steps that the event loop interleaves:
  - `Begin`: check the connection, register, write;
  - `HandleResponse`: a response completes a future;
  - `TimeoutFires`: the timeout cancels a future;
  - `Finish`: the call pops its entry and returns or raises.
- A promise is modelled by its settlement.
- Generated ids are parameters. A ghost set of ids already handed out keeps them fresh.

## Model

| member | source | states |
|---|---|---|
| Registry.Envelope | dex-mcp-master/context.py:37-42 | The request frame has exactly the keys id, type and payload. A missing payload is sent as `{}`. |
| Registry.Conclude | dex-mcp-master/context.py:53-61 | A response holding an "error" key raises with that error, whatever its value. Otherwise the call returns `response.get("result")`, which is null when absent. A cancelled future is the timeout. |
| Registry.Resolve | dex-mcp-master/context.py:66-72 | `handle_response` keeps the key set. It completes only a waiting future under the message's id. It never touches a future that is already done, nor any other id. |
| Registry.Expire | dex-mcp-master/context.py:53-61 | The timeout cancels only a waiting future of that id. Everything else is unchanged. |
| Registry.ResolveAllFirstWins | dex-mcp-master/context.py:69-72 | Over any sequence of responses, a waiting future ends with the first response naming its id, and later duplicates are ignored. A future that is already done is untouched. The key set never changes. |
| Registry.ResolveCommutes | dex-mcp-master/context.py:66-72 | Responses for different ids may arrive in either order with the same final map. |
| Registry.ResolveUnknownIsNoop | dex-mcp-master/context.py:68-69 | A response with a missing or unknown id changes nothing. |
| Registry.RequestLifecycle | dex-mcp-master/context.py:45-64 | The happy path runs register, respond, conclude and pop. The outcome is decided by the response, and the map ends as it was before the call. |
| Registry.TimeoutLifecycle | dex-mcp-master/context.py:53-64 | The timeout path raises Timeout and restores the map. A late response is then a no-op. |
| Registry.Context.constructor | dex-mcp-master/context.py:10-12 | No socket and no pending requests. |
| Registry.Context.SetWs | dex-mcp-master/context.py:20-26 | Installs the socket unconditionally. Nothing is closed, and the pending map is not touched. |
| Registry.Context.HasWs | dex-mcp-master/context.py:28-30 | True exactly when a socket is installed. |
| Registry.Context.ActiveSocket | dex-mcp-master/context.py:14-18 | Returns the socket, or the "No connection" error when none is installed. |
| Registry.Context.Begin | dex-mcp-master/context.py:32-50 | Without a socket, it raises NotConnected before any id, entry or write. Otherwise it registers a waiting future under the fresh id and writes the envelope to the active socket. If the write fails, it raises with the entry already popped. |
| Registry.Context.HandleResponse | dex-mcp-master/context.py:66-72 | The new pending map is `Resolve` of the old one. |
| Registry.Context.TimeoutFires | dex-mcp-master/context.py:53-61 | The new pending map is `Expire` of the old one. |
| Registry.Context.Finish | dex-mcp-master/context.py:55-64 | Once the future is done, the entry is popped on every path, and the call returns or raises as `Conclude` says. |
| Registry.Context.Close | dex-mcp-master/context.py:74-78 | Closes the active socket, if any, and empties the slot. Pending calls are not touched. |
| Listener.Classify | dex-mcp-master/ws_server.py:17-31 | Invalid JSON is logged. A debug_log frame is logged with `payload.get("message")` (null when the payload is absent) and skipped. A parsed value that is not a dict, a debug payload that is not a dict, or an unhashable id is a handler error. Every other parsed dict goes to `handle_response`. |
| Listener.ResponsesAppend | dex-mcp-master/ws_server.py:17-27 | Frames are handled one at a time: the responses of two runs are each run's responses, in order. |
| Listener.FrameLogAppend | dex-mcp-master/ws_server.py:17-31 | Likewise for the log lines. |
| Listener.ResolveAllAppend | dex-mcp-master/ws_server.py:17-27 | Feeding two runs of responses is feeding one, then the other. |
| Listener.NoDebugLogIsResolved | dex-mcp-master/ws_server.py:22-25 | No message of type debug_log ever reaches `handle_response`. |
| Listener.OneFrame | dex-mcp-master/ws_server.py:27 | A routed frame reaches `handle_response` exactly once, and any other frame never does. |
| Listener.ClearIfCurrent | dex-mcp-master/ws_server.py:37-39 | The slot is emptied only if it still holds this socket. |
| Listener.StaleTeardownKeepsNewer | dex-mcp-master/ws_server.py:37-39 | After `b` replaced `a`, the teardown of `a` leaves `b` installed, and the teardown of `b` empties the slot. |
| Listener.Accept | dex-mcp-master/ws_server.py:13-14 | A new connection is installed at once (last connected wins). |
| Listener.OnFrame | dex-mcp-master/ws_server.py:18-31 | One loop iteration changes the pending map as the routed responses say, and logs what `FrameLog` says. |
| Listener.Teardown | dex-mcp-master/ws_server.py:37-39 | The compare-and-clear of the slot. The pending map is untouched. |
| Listener.ReadLoop | dex-mcp-master/ws_server.py:17-31 | The read loop resolves exactly the routed responses, in order, and logs exactly what `FrameLog` says. |
| Listener.Serve | dex-mcp-master/ws_server.py:11-39 | A whole connection: install, route every frame in order, log how the loop ended, and clear the slot. |
| DexMcp.CommandMessage | backend/services/dexMCP.js:61-66 | The message has keys id, action and the params. The params are spread after id and action and override them. |
| DexMcp.DexMcpService.constructor | backend/services/dexMCP.js:5-10 | Not connected, and no outstanding requests. |
| DexMcp.DexMcpService.OnOpen | backend/services/dexMCP.js:17-21 | `open` sets the connection flag. |
| DexMcp.DexMcpService.OnClose | backend/services/dexMCP.js:32-35 | `close` clears the connection flag. |
| DexMcp.DexMcpService.OnError | backend/services/dexMCP.js:37-41 | `error` clears the connection flag. |
| DexMcp.DexMcpService.HandleMessage | backend/services/dexMCP.js:48-54 | A truthy id in the map is deleted and its promise is resolved with the message. Anything else is a no-op. Earlier settlements are never changed, so a duplicate response does nothing. |
| DexMcp.DexMcpService.SendCommand | backend/services/dexMCP.js:56-71 | When not connected, it refuses with "Not connected" before any id, entry or write. Otherwise it registers the fresh id and writes the command message. |
| DexMcp.DexMcpService.TimerFires | backend/services/dexMCP.js:73-79 | The timer rejects with "Request timeout" and deletes the entry only if it is still present. After a resolution it does nothing. |
| DexMcp.FillRow | backend/services/dexMCP.js:97-117 | Click first. A rejected click aborts the row with its error. A click with a truthy `result.success` is followed by `input_text` and Enter, and the row then aborts exactly when one of those two is rejected. The commands sent are always a prefix of click, `input_text`, Enter. Any other click records "Cell not found". The row aborts exactly when one of its commands is rejected, and then it stops at the first rejected command and carries that command's error. |
| DexMcp.FillFrom | backend/services/dexMCP.js:93-126 | On success there is one result per row, for that row's cell, in input order. |
| DexMcp.FillResultsExplained | backend/services/dexMCP.js:103-116 | A row succeeds exactly when it has no error. Every failed row says "Cell not found". |
| DexMcp.FillAbortsOnError | backend/services/dexMCP.js:121-125 | The loop fails exactly when one of the commands it sent was rejected. The failure carries the error of the last command sent, and no earlier command was rejected, so the loop stops at the first rejection and sends nothing after it. |
| DexMcp.FillAccIsPrefix | backend/services/dexMCP.js:93-126 | The loop's running state (commands and results so far, then the rows left) ends as the rows done so far put in front of `FillFrom` of the rest. |
| DexMcp.FillOneRow | backend/services/dexMCP.js:98-119 | The loop body issues the commands and records the result that `FillRow` specifies. |
| DexMcp.FillSpreadsheetData | backend/services/dexMCP.js:93-126 | The loop issues the commands and returns the outcome that `FillFrom` specifies. |
| SpreadsheetParser.PhoneColumn | backend/services/spreadsheetParser.js:78-89 | The lowest index whose lower-cased header contains a phone keyword, or -1 exactly when there is none. |
| SpreadsheetParser.FindPhoneColumn | backend/services/spreadsheetParser.js:78-89 | The indexed loop with early return computes `PhoneColumn`. |
| SpreadsheetParser.KeepPhoneChars | backend/services/spreadsheetParser.js:95 | Only digits and '+' remain. |
| SpreadsheetParser.KeepPhoneCharsKeepsDigits | backend/services/spreadsheetParser.js:95-98 | The cleaning keeps every digit, in order. |
| SpreadsheetParser.KeepPhoneCharsFixes | backend/services/spreadsheetParser.js:95 | A string of digits and '+' is left unchanged. |
| SpreadsheetParser.CleanPhoneNumberSpec | backend/services/spreadsheetParser.js:91-105 | A number is returned exactly when the cell is truthy and holds at least ten digits. The result is made of digits and '+', keeps the cell's digits, and is at least ten long. |
| SpreadsheetParser.CleanPhoneNumberIdempotent | backend/services/spreadsheetParser.js:91-105 | Cleaning a cleaned number gives it back. |
| SpreadsheetParser.AdditionalDataSpec | backend/services/spreadsheetParser.js:59-64 | Keys come from present headers of truthy cells outside the phone column. Each key holds the cell of the last such column of that name, and every contributing column's name is a key. |
| SpreadsheetParser.CollectAdditionalData | backend/services/spreadsheetParser.js:59-64 | The `forEach` builds `AdditionalData`. |
| SpreadsheetParser.ContactsSpec | backend/services/spreadsheetParser.js:46-68 | Contacts come in strictly increasing row order. There is one for every data row whose phone cell cleans to a number, and for no other row. Each carries its row index, cleaned number and additional data. |
| SpreadsheetParser.ProcessSpreadsheetData | backend/services/spreadsheetParser.js:34-76 | Null or empty data raises "Spreadsheet is empty". A missing phone column raises its message. Otherwise the result is the contacts, `totalRows = length - 1` and `validContacts = contacts.length`. |
| SpreadsheetParser.SummaryCounts | backend/services/spreadsheetParser.js:70-75 | `validContacts <= totalRows`. |
| SpreadsheetParser.NonBlankTrimmed | backend/services/spreadsheetParser.js:113-116 | The trimmed lines with empty ones dropped. None is empty, and there are no more of them than lines. |
| SpreadsheetParser.NonBlankTrimmedLine | backend/services/spreadsheetParser.js:115-116 | One line survives, trimmed, exactly when it is not blank. |
| SpreadsheetParser.NonBlankTrimmedAppend | backend/services/spreadsheetParser.js:113-116 | The map and filter work line by line: the texts of two blocks of lines are those of the first followed by those of the second. With the one-line case this fixes the texts as the trimmed non-blank lines in order. |
| SpreadsheetParser.NonBlankTrimmedMembers | backend/services/spreadsheetParser.js:113-116 | A text survives exactly when it is non-empty and is one of the trimmed lines (`TrimAll`, the `.map(q => q.trim())` step). |
| SpreadsheetParser.NonBlankTrimmedEmpty | backend/services/spreadsheetParser.js:113-125 | No question survives exactly when every line is blank. |
| SpreadsheetParser.ParseQuestionsSpec | backend/services/spreadsheetParser.js:107-128 | It raises exactly when the text is missing or only white space: "Questions text is required" for missing or empty text, "No valid questions found" for other blank text. Otherwise question i has id i + 1, type open_ended and the i-th trimmed non-blank line as its text, one question per such line. |
| SpreadsheetParser.NonBlankTrimmedLines | backend/services/spreadsheetParser.js:113-116 | Each surviving line is already trimmed and holds no newline. |
| SpreadsheetParser.ParsedQuestionTexts | backend/services/spreadsheetParser.js:113-121 | Each question's text is trimmed and lies on one line. |
| QuestionList.AddSpec | frontend/src/pages/TestCall.js:12-14 | Appends exactly one empty entry at the end and leaves the submitted (non-blank) questions unchanged. |
| QuestionList.DropPositionSpec | frontend/src/pages/TestCall.js:18 | The index filter removes exactly the entry at `index`, and nothing when no entry has that index. |
| QuestionList.RemoveSpec | frontend/src/pages/CampaignManager.js:36-40 | A no-op at length one. Otherwise it removes only the given index. It never empties a non-empty list. |
| QuestionList.Update | frontend/src/pages/TestCall.js:22-26 | Replaces only the given index. The length and the other entries are unchanged. |
| QuestionList.NonBlank | frontend/src/pages/CampaignManager.js:59 | The filter keeps entries untrimmed and in their original order (a subsequence), and each kept entry is non-blank. |
| QuestionList.NonBlankMembers | frontend/src/pages/CampaignManager.js:77 | An entry is submitted exactly when it is in the list and not blank. |
| QuestionList.NonBlankCounts | frontend/src/pages/CampaignManager.js:77 | A non-blank entry is submitted as many times as it occurs, so duplicates are kept. |
| QuestionList.NonBlankEmpty | frontend/src/pages/TestCall.js:58-62 | Nothing is submitted exactly when every entry is blank. |
| TestCall.FormattedDigits | frontend/src/pages/TestCall.js:28-35 | The digits of a formatted number are '1' followed by the last ten input digits. Earlier digits are dropped. |
| TestCall.FormatPhoneNumberSpec | frontend/src/pages/TestCall.js:28-39 | Fewer than ten digits: the input is returned as typed. Otherwise the output depends only on the last ten digits. |
| TestCall.FormatPhoneNumberIdempotent | frontend/src/pages/TestCall.js:28-39 | Formatting a formatted number changes nothing. |
| TestCall.ValidateFormSpec | frontend/src/pages/TestCall.js:46-65 | Accepted exactly when the number has eleven digits starting with '1' and some question is non-blank. A blank number is reported as missing. A wrong digit count or lead digit is reported as invalid. A valid number with only blank questions is refused with "Please add at least one question". |
| TestCall.FormattedNumberIsValid | frontend/src/pages/TestCall.js:34-56 | Every formatted number passes both phone checks, so only the questions can still reject the form. |
| TestCall.BackendPhoneDigits | frontend/src/pages/TestCall.js:94 | The backend number keeps every digit. For a valid number it is '+' and the eleven digits. |
| TestCall.InitiatePayloadSpec | frontend/src/pages/TestCall.js:93-97 | For an accepted form the request carries a 12-character '+1…' number, the campaign id, and the non-blank questions in original order. |
| TestCall.FormattedPayloadPhone | frontend/src/pages/TestCall.js:94 | For a formatted number the backend receives "+1" and the last ten digits typed. |
| CampaignManager.ValidateFormSpec | frontend/src/pages/CampaignManager.js:48-66 | Accepted exactly when the trimmed name is non-empty, a file is present and some question is non-blank. Each failure names the first guard that fails. |
| CampaignManager.AddKeepsVerdict | frontend/src/pages/CampaignManager.js:32-34 | Adding an empty question never changes the verdict. |
| CampaignManager.CreateRequestSpec | frontend/src/pages/CampaignManager.js:75-79 | The create request carries the name as typed, "database", and exactly the non-blank questions, untrimmed, in order and with their multiplicities. |
| CampaignManager.AfterCreateSpec | frontend/src/pages/CampaignManager.js:87-97 | After a successful create the form is name `''`, questions `['']` and no file, and it is refused until a name is entered. A failed create leaves the form alone. |
| CampaignManager.StartedCampaign | frontend/src/pages/CampaignManager.js:112 | Status becomes "running" and every other key of the previous campaign is kept. Spreading null gives only the status. |
| CampaignManager.AfterStart | frontend/src/pages/CampaignManager.js:106-119 | Only a successful start touches the shown campaign. |
| CampaignManager.StartIdempotent | frontend/src/pages/CampaignManager.js:112 | Starting twice is starting once. |
| Leads.LowerAlnum | frontend/src/app/leads/page.tsx:7-14 | The reference definition: only lower-case letters and digits remain. |
| Leads.LowerAlnumCollapse | frontend/src/app/leads/page.tsx:9 | Collapsing white-space runs does not change the letters and digits. |
| Leads.LowerAlnumTrim | frontend/src/app/leads/page.tsx:10 | Trimming does not change them. |
| Leads.KeepAlnumToLower | frontend/src/app/leads/page.tsx:11-13 | Lower-casing, then keeping `[a-zA-Z0-9]`, is the reference definition. |
| Leads.KeepAlnumRemoveSpaces | frontend/src/app/leads/page.tsx:12-13 | Removing spaces before the alphanumeric filter changes nothing. |
| Leads.NormalizeHeaderSpec | frontend/src/app/leads/page.tsx:7-14 | The replace chain equals the reference definition. |
| Leads.NormalizeHeaderIdempotent | frontend/src/app/leads/page.tsx:7-14 | The output has only lower-case letters and digits, and normalising it again changes nothing. |
| Leads.NormalizeIgnoresSeparator | frontend/src/app/leads/page.tsx:7-14 | A space, underscore or other non-alphanumeric character anywhere does not change the key ("Phone Number" and "phone_number"). |
| Leads.NormalizeIgnoresCase | frontend/src/app/leads/page.tsx:7-14 | Case does not change the key. |
| Leads.NormalizeHeaders | frontend/src/app/leads/page.tsx:39 | One normalised header per raw header, in order. |
| Leads.NormalizedRowKeys | frontend/src/app/leads/page.tsx:42-48 | The keys of a re-keyed row are exactly the normalised headers. |
| Leads.NormalizedRowValues | frontend/src/app/leads/page.tsx:42-48 | Each key holds the raw value under the last raw header that normalises to it (on a collision the later header wins). |
| Leads.NormalizeRow | frontend/src/app/leads/page.tsx:43-47 | The `forEach` builds `NormalizedRow`. |
| Leads.NormalizeData | frontend/src/app/leads/page.tsx:42-48 | Every row is re-keyed, in order. |
| Leads.OnFileLoaded | frontend/src/app/leads/page.tsx:28-55 | A selected file's headers and rows are normalised, and any confirmation is withdrawn. Without a file nothing changes. |
| Leads.Confirm | frontend/src/app/leads/page.tsx:57-59 | Sets `confirmed` and nothing else. |
| Leads.HandleContinue | frontend/src/app/leads/page.tsx:61-73 | The new request, with status "Complete", is placed first. The saved list (or `[]`) follows in its order. |
| CallHistory.FilteredCalls | frontend/src/pages/CallHistory.js:78-83 | The shown calls are an order-preserving subsequence, and each shown call matches both search and status. |
| CallHistory.FilteredCallsMembers | frontend/src/pages/CallHistory.js:78-83 | A call is shown exactly when it is loaded, the lower-cased term occurs in its lower-cased phone or campaign name, and the filter is 'all' or equals its status. A shown call appears as many times as it is loaded. |
| CallHistory.NoFilterShowsAll | frontend/src/pages/CallHistory.js:78-83 | An empty term with filter 'all' shows every call. |
| CallHistory.StatusStyles | frontend/src/pages/CallHistory.js:46-72 | 'pending' and 'initiated' share the warning style, and unknown statuses get the gray default. The colour and icon switches agree with each other. |
| CallHistory.EmptyStateHintSpec | frontend/src/pages/CallHistory.js:235-243 | No calls: the hint asks for calls. With calls, it asks to adjust the filter exactly when the filter hides all of them. |
| StartSurvey.AddQuestionSpec | frontend/src/app/start-survey/page.tsx:17-28 | A blank input changes nothing. Otherwise one question is appended with the trimmed input, and the input is cleared. |
| StartSurvey.RemoveQuestion | frontend/src/app/start-survey/page.tsx:30-32 | The result is a subsequence, and no question with that id remains. |
| StartSurvey.RemoveQuestionSpec | frontend/src/app/start-survey/page.tsx:30-32 | Every question with that id is dropped and all others are kept. An unknown id changes nothing. |
| StartSurvey.RemoveQuestionCounts | frontend/src/app/start-survey/page.tsx:30-32 | Every question with another id is kept as many times as it occurs. |
| StartSurvey.AddKeepsWellFormed | frontend/src/app/start-survey/page.tsx:17-28 | Adding keeps every question non-empty and trimmed. |
| StartSurvey.RemoveKeepsWellFormed | frontend/src/app/start-survey/page.tsx:30-32 | Removing keeps every question non-empty and trimmed. |
| StartSurvey.HandleSubmit | frontend/src/app/start-survey/page.tsx:34-42 | Submitting does nothing exactly when there are no questions. |
| NewSurvey.SetField | frontend/src/app/surveys/new/page.tsx:32-36 | Only the named field changes. |
| NewSurvey.UpdateQuestion | frontend/src/app/surveys/new/page.tsx:32-36 | Length, order and ids are kept. Questions with another id are unchanged, and those with the id get the field set. |
| NewSurvey.RemoveQuestion | frontend/src/app/surveys/new/page.tsx:38-40 | The result is a subsequence, and no question with that id remains. |
| NewSurvey.RemoveQuestionMembers | frontend/src/app/surveys/new/page.tsx:38-40 | Every question with that id is removed and every other question is kept, as many times as it occurs. |
| NewSurvey.AddAfterRemoveRepeatsId | frontend/src/app/surveys/new/page.tsx:20-30 | As written: add, remove "1" and add again gives two questions with id "2". |
| NewSurvey.InitialEditorValid | frontend/src/app/surveys/new/page.tsx:10-17 | The initial state (one required, open-ended, empty question with id "1") has distinct counter ids. |
| NewSurvey.AddKeepsIdsDistinct | frontend/src/app/surveys/new/page.tsx:20-30 | Corrected: the counter's id differs from every id in the list, and ids stay distinct. |
| NewSurvey.UpdateKeepsValid | frontend/src/app/surveys/new/page.tsx:32-36 | Editing a field keeps the ids distinct. |
| NewSurvey.RemoveKeepsValid | frontend/src/app/surveys/new/page.tsx:38-40 | Removing keeps the ids distinct. |
| NewSurvey.AddAgreesWithoutRemoval | frontend/src/app/surveys/new/page.tsx:20-30 | Until something is removed, the corrected add gives the same list as the original. |
| Text.Digits | frontend/src/pages/TestCall.js:30 | `replace(/\D/g, '')` yields only digits and is no longer than its input. |
| Text.TrimIsSlice | backend/services/spreadsheetParser.js:115 | `trim()` keeps a contiguous slice, removes only white space at both ends, and leaves none at either end. |
| Text.TrimEmptyIffBlank | frontend/src/pages/CampaignManager.js:49 | `s.trim()` is empty exactly when `s` is all white space. |
| Text.TrimIdempotent | backend/services/spreadsheetParser.js:115 | Trimming twice is trimming once. |
| Text.ToLower | frontend/src/pages/CallHistory.js:79-80 | Same length, with every character lower-cased (ASCII). |
| Text.ContainsEmpty | frontend/src/pages/CallHistory.js:79-80 | Every string includes the empty string. |
| Text.JoinSplit | backend/services/spreadsheetParser.js:114 | `split('\n')` loses nothing: joining the pieces gives back the text. |
| Text.SplitPiecesFree | backend/services/spreadsheetParser.js:114 | No piece contains the separator. |
| Text.NatToStringInjective | frontend/src/app/surveys/new/page.tsx:24 | Distinct numbers have distinct `String(n)`. |

## Left out

- asyncio, Promises and timers. Futures, `wait_for` and `setTimeout` are the discrete steps `Begin`/`HandleResponse`/`TimeoutFires`/`Finish` and `SendCommand`/`HandleMessage`/`TimerFires`. The event loop and durations (30 s, 500 ms, 800 ms, 1500 ms) are not modelled.
- `uuid.uuid4` and `uuidv4` are a fresh-id parameter. Their uniqueness is assumed through the `used` ghost set, not proved.
- JSON encoding and decoding, and WebSocket framing: frames are already classified as text that fails to parse or as a parsed value. `start_websocket_server`, `connect()` and socket creation are left out.
- Numbers are integers written in plain decimal digits. Fractional and date cells, and their `toString`, are not modelled. Nor are integers of 1e21 and above, which JavaScript's `String(n)` writes in exponent form, or integers above 2^53, which a JavaScript number does not hold exactly.
- `toLowerCase` is modelled for ASCII only. Non-ASCII characters are kept as they are, though some (the Kelvin sign, for one) lower-case to ASCII letters.
- Registry.Context.Begin: the write is taken to succeed or fail at once (`writeOk`). Another task running during the `await ws.send` (a socket swap, say) is not modelled.
- Registry.Context.Close: `await self._ws.close()` raising is not modelled. The close and the clearing of the slot are one step, so a socket the listener installs while `close()` is awaited, which the source then clears too, is not modelled.
- Listener.Serve: a single connection runs with no other task interleaved. Overlapping connections are covered by `Accept`, `Teardown` and `StaleTeardownKeepsNewer` on their own.
- DexMcp.DexMcpService.SendCommand: `ws.send` is taken never to throw. A JSON parse failure in the `message` listener is logged and ignored, so `HandleMessage` takes the parsed value.
- DexMcp.FillSpreadsheetData: how each awaited command settles is an input sequence. It is not linked to the service object, and a missing settlement counts as the timer's rejection.
- `openGoogleSheets`, `getDOMStructure`, `takeScreenshot` and `initializeDexMCP` are thin wrappers over `sendCommand`, so they are left out.
- SpreadsheetParser: `parseFile` (XLSX reading, file deletion) is file I/O. Missing cells are holes, so `forEach` skips a missing header.
- QuestionList.Update: requires an index inside the list. Past the end, JavaScript would extend the array with holes, but the forms only pass the index of a displayed entry.
- NewSurvey.UpdateQuestion: only the fields the page edits (question, type, required) are modelled. The page never passes `id` or `options`.
- Rendering, toasts, axios calls, `localStorage`, the JSON round trip of the saved request list, router navigation, `Date` and `Math.random` are left out. Generated ids and dates are parameters.
- The network flows of `initiateTestCall`, `createCampaign` and `startCampaign` are left out, beyond the request shaping and the success and failure effects on form state. `onDrop`, the call-history fetch (mock data), `formatDate` and the detail modal are left out too.
- Leads: `Papa.parse` is left out; the parsed `meta.fields` and rows are parameters.

## Findings

| source | as written | input that shows it | evidently intended | confidence | as-written member | corrected member |
|---|---|---|---|---|---|---|
| frontend/src/app/surveys/new/page.tsx:24 | A new question's id is `String(questions.length + 1)`. | Start with question "1", add (ids "1","2"), remove "1", add. The new question gets id "2", the id of the question left, so `updateQuestion` and `removeQuestion` then act on both (`NewSurvey.AddAfterRemoveRepeatsId`). | Every question has its own id. | not executed; follows from the code | NewSurvey.AddQuestionAsWritten | NewSurvey.AddQuestion (distinct ids kept by `NewSurvey.AddKeepsIdsDistinct`, `UpdateKeepsValid`, `RemoveKeepsValid`) |
