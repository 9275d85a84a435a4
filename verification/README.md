# Telemetry server and client: a Dafny model

This project models the sequential core of a small asio-based telemetry
service and its console client.

- **Server, one connection at a time (`TelemetrySession`).** A request is read.
  `handle_request` maps it to a response or to closing the socket. Exact
  matches `ECHO`, `QUIT`, `INFO`, `LIST`, then the prefix `"CD "`, then
  `TELEMETRYDATA`, and everything else gets `"Unknown request\n"`. `do_write`
  sends the response with one `'!'` appended, and a successful write starts
  the next read.
- **Server helpers.** `generate_random_number(min, max)` is `min + rand() %
  ((max + 1) - min)` with C++'s truncating `%`. `generate_telemetry_data`
  builds a four-line report from it. `getDirectoryContents` drops `"."` and
  `".."`, and `listDirectory` ends each entry with a newline.
- **Client.** `write` pushes to the back of a FIFO queue and starts a write only
  when the queue was empty. `do_write` sends the front. A successful write
  completion pops the front and continues while the queue is non-empty; a
  failed one closes the socket. The read completion takes the text before the
  first `'!'`. The input loop of `main` sends every line until `"exit"`.

Operating-system results (current directory, `readdir`, `chdir`) and the
values `rand()` returns are inputs, gathered in `Dispatch.Environment`.
Completions of asynchronous operations are method calls with an `ok` flag.

Files, one module each: `text.dfy` (string helpers: `substr`, `std::to_string`
on ints with its inverse, joining lines with newlines and splitting them
again), `directory.dfy`, `telemetry.dfy`,
`dispatch.dfy` (the decision of `handle_request`), `session.dfy` (framing and
the server session class), `client.dfy`, `protocol.dfy` (server framing
against the client's reader).

Two things the proofs bring out:

- The client's read completion calls `do_write` unconditionally
  (Client.cpp:78). The queue discipline `SingleWriter` (at most one write in
  flight, and the front of the queue is the message in flight) is kept by
  `write`, the write completion and `close`, but not by that call; see
  Findings.
- The server ends responses with `'!'`, while the client's read waits for a
  `'%'`. None of the fixed replies carries a `'%'`, so the framed replies to
  `ECHO`, `INFO`, a failed `CD` and unknown requests never complete a client
  read on their own (`Protocol.EchoInfoUnknownStallClient`). The telemetry
  report always carries one (the humidity unit): when nothing was buffered
  before it, its reply completes the read and the client recovers it whole
  (`Protocol.TelemetryReplyReachesClient`). A `LIST` reply with a `'%'` in a
  file name, and a successful `CD` reply whose path holds one, also complete
  the read (`Protocol.ListReplyCompletesRead`,
  `Protocol.ChangedReplyCompletesRead`). A stalled reply stays buffered, and
  the next read that completes extracts it instead of the newer reply
  (`Protocol.StalledReplyShadowsNext`).

## Model

| member | source | states |
|---|---|---|
| `Text.IntToString` | Server.cpp:81-84 | `std::to_string` of an int: non-empty, digits only apart from a leading '-' (read back by `Text.IntToStringRoundTrip`) |
| `Text.IntToStringRoundTrip` | Server.cpp:81-84 | the decimal text `std::to_string` gives an int reads back as that int |
| `Text.NatToStringRoundTrip` | Server.cpp:81-84 | the digits of a non-negative number read back as that number |
| `Directory.VisibleNames` | Server.cpp:181-188 | every kept name is neither "." nor "..", and no more names are kept than were read |
| `Directory.VisibleNamesMembers` | Server.cpp:181-188 | a name is kept if and only if it was read and is neither "." nor ".." |
| `Directory.VisibleNamesAppend` | Server.cpp:181-188 | the filter keeps the order of the names: filtering two pieces gives the filtered first piece followed by the filtered second |
| `Directory.VisibleNamesKeepsListed` | Server.cpp:185-187 | a stream with no "." or ".." comes through unchanged |
| `Directory.VisibleNamesIdempotent` | Server.cpp:185-187 | filtering an already filtered list changes nothing |
| `Directory.Contents` | Server.cpp:174-193 | what getDirectoryContents returns: nothing when the directory cannot be opened, otherwise no more names than were read and none of them "." or ".." (membership and order in `Directory.VisibleNamesMembers` and `Directory.VisibleNamesAppend`) |
| `Directory.DirectoryContents` | Server.cpp:174-193 | the while-loop with push_back returns the filtered names, and nothing when the directory cannot be opened |
| `Text.JoinLinesLength` | Server.cpp:166-169 | the joined text's length is the sum over the lines of their length plus one |
| `Text.JoinLinesAppend` | Server.cpp:166-169 | joining two line lists gives the first joined text followed by the second, so the order of the lines is kept |
| `Text.JoinLinesHas` | Server.cpp:166-169 | a character other than the newline occurs in the joined text if and only if it occurs in one of the lines |
| `Text.SplitJoinLines` | Server.cpp:166-169 | when no line holds a newline, splitting the joined text gives back the lines in order |
| `Directory.ListingLines` | Server.cpp:161-193 | the lines of the LIST text are exactly the kept names in readdir order, when no name holds a newline |
| `Directory.ListDirectory` | Server.cpp:161-172 | the for-loop with `+=` builds exactly the directory contents joined with a newline after each |
| `Telemetry.CRemainder` | Server.cpp:96 | C++ `%`: truncated quotient times divisor plus remainder is the dividend; the remainder has the dividend's sign and is smaller than the divisor |
| `Telemetry.RandomInRange` | Server.cpp:89-97 | for any non-negative rand() value the result lies in [min, max] when min <= max; a zero range width is excluded, as the source divides by it |
| `Telemetry.RandomInRangeReaches` | Server.cpp:96 | every value of [min, max] is produced by some rand() value |
| `Telemetry.Generate` | Server.cpp:72-79 | temperature in [-40, 50], humidity in [0, 100], pressure base in [950, 1050], wind speed in [0, 20] |
| `Telemetry.Report` | Server.cpp:81-86 | the report is the temperature, humidity, pressure and wind-speed lines, each followed by a newline, in that order (the lines in `Telemetry.ReportLineTexts`) |
| `Telemetry.ReportLines` | Server.cpp:81-86 | the report splits into exactly the temperature, humidity, pressure and wind-speed lines, in that order, when the printed pressure holds no newline |
| `Telemetry.TemperatureReadsBack` | Server.cpp:81 | the temperature line carries the generated temperature, readable back as an int |
| `Dispatch.Parse` | Server.cpp:103-142 | each exact command is recognised if and only if the request equals it; "CD " prefix if and only if the first three characters are "CD ", with the rest as directory; unknown if and only if none of these |
| `Dispatch.ParseRender` | Server.cpp:103-135 | every command is recognised back from its request text |
| `Dispatch.RenderParse` | Server.cpp:103-135 | a recognised request is exactly the text of the command it is recognised as |
| `Dispatch.Handle` | Server.cpp:103-142 | the branch bodies of handle_request: only QUIT closes the socket, every other command responds (the responses per command in `Dispatch.HandleRequest`, `Dispatch.ListRequest`, `Dispatch.ChangeDirectoryRequest` and `Dispatch.TelemetryRequest`) |
| `Dispatch.HandleRequest` | Server.cpp:99-145 | close if and only if the request is QUIT; ECHO answers "ECHO\n", INFO its fixed text, every unrecognised request "Unknown request\n" |
| `Dispatch.UnknownExamples` | Server.cpp:121 | the empty request, "CD" without a space, lower-case "echo" and "QUIT " all get "Unknown request\n" |
| `Dispatch.ChangeDirectoryRequest` | Server.cpp:121-134 | "CD " + d passes d to chdir and answers with the new directory on success or the failure text otherwise |
| `Dispatch.ListRequest` | Server.cpp:116-120 | LIST answers with the listing of the current directory's contents |
| `Dispatch.TelemetryRequest` | Server.cpp:135-138 | TELEMETRYDATA answers with the report of readings that lie in their ranges |
| `Session.Frame` | Server.cpp:56 | the sent message is the response followed by exactly one '!' |
| `Session.Unframe` | Server.cpp:56 | a reference inverse of the suffix rule, not a model of code (the client's real parser is `TelemetryClient.ExtractMessage`): a message has a response inside if and only if it ends with '!' |
| `Session.UnframeFrame` | Server.cpp:56 | unframing a framed response gives the response back |
| `Session.FrameUnframe` | Server.cpp:56 | framing an unframed message gives the message back |
| `Session.FrameInjective` | Server.cpp:56 | different responses are sent as different messages |
| `Session.TelemetrySession.constructor` | Server.cpp:17-20 | a new session is open, with nothing pending and nothing sent |
| `Session.TelemetrySession.Start` | Server.cpp:22-25 | start begins a read on an open socket |
| `Session.TelemetrySession.DoRead` | Server.cpp:28-51 | a read is started only while the socket is open |
| `Session.TelemetrySession.DoWrite` | Server.cpp:53-70 | one message is sent, the framed response, and a write is pending |
| `Session.TelemetrySession.HandleRequest` | Server.cpp:99-145 | QUIT closes the socket and sends nothing; any other request sends exactly the framed handler response, leaving the socket open |
| `Session.TelemetrySession.OnReadComplete` | Server.cpp:33-49 | a successful read is handled as above; a failed one sends nothing and starts nothing |
| `Session.TelemetrySession.OnWriteComplete` | Server.cpp:59-69 | a successful write starts the next read; a failed one starts nothing |
| `Session.EchoTelemetryQuit` | Server.cpp:99-145 | ECHO, TELEMETRYDATA, QUIT on one connection: two framed responses in order, then closed with nothing pending |
| `TelemetryClient.ReadLength` | Client.cpp:68 | the read completes if and only if a '%' has arrived, with the length up to and including the first '%' |
| `TelemetryClient.ExtractMessage` | Client.cpp:73-75 | the message is the longest '!'-free prefix of the buffered text: the text before the first '!', or all of it |
| `TelemetryClient.ExtractMessageOfFrame` | Client.cpp:75 | a '!'-free text followed by '!' and anything else is extracted exactly |
| `TelemetryClient.InputDecision` | Client.cpp:139-145 | the line "exit" closes the client; every other line is written unchanged |
| `TelemetryClient.Outgoing` | Client.cpp:134-146 | no line handed to write is "exit" |
| `TelemetryClient.OutgoingIsPrefix` | Client.cpp:134-146 | the written lines are the input lines before the first "exit", and "exit" follows them when there is one |
| `TelemetryClient.Client.constructor` | Client.cpp:17-21 | a client starts with an empty queue and nothing in flight |
| `TelemetryClient.Client.DoWrite` | Client.cpp:88-109 | on an empty queue nothing happens; otherwise the front is sent and nothing else changes |
| `TelemetryClient.Client.Write` | Client.cpp:23-33 | the message is appended at the back, earlier messages unchanged; a write starts if and only if the queue was empty; SingleWriter is kept |
| `TelemetryClient.Client.OnWriteComplete` | Client.cpp:92-107 | on success exactly the front is popped and the next write starts if and only if the queue is still non-empty; on error the socket closes and the queue is not popped; SingleWriter is kept |
| `TelemetryClient.Client.OnReadComplete` | Client.cpp:69-85 | as written: the message before the first '!' is extracted and the front is sent again whenever the queue is non-empty; an error closes the socket |
| `TelemetryClient.Client.OnReadCompleteSerialized` | Client.cpp:69-85 | the read completion without the line-78 call: the message is extracted, no write is started, SingleWriter is kept |
| `TelemetryClient.Client.Close` | Client.cpp:35-39 | close closes the socket and changes nothing else |
| `TelemetryClient.Client.RunInput` | Client.cpp:134-146 | the queue grows by exactly the lines before the first "exit"; the client is closed if and only if "exit" was typed; only the first line starts a write when the queue was empty |
| `TelemetryClient.DoubleWriteScenario` | Client.cpp:78 | two queued lines and a reply arriving during the second write: the second line is sent twice and the queue is popped while empty |
| `TelemetryClient.SerializedScenario` | Client.cpp:78 | the same events with the serialized read completion send each line once and keep SingleWriter |
| `Protocol.ClientReadsFramedResponse` | Client.cpp:75 | the client extracts exactly the response from a framed reply with no '!' of its own, whatever follows it |
| `Protocol.ReportDelimiters` | Server.cpp:81-84 | the telemetry report holds a '%' and, when the printed pressure holds no '!', no '!' |
| `Protocol.TelemetryReplyReachesClient` | Client.cpp:68-75 | when nothing was buffered before it, the framed TELEMETRYDATA reply completes the client's read and is extracted whole |
| `Protocol.FixedReplyStallsClient` | Client.cpp:68 | the framed fixed replies hold no '%' and so do not complete the client's read |
| `Protocol.ListReplyCompletesRead` | Client.cpp:68 | a LIST reply completes the client's read when a listed name holds a '%' |
| `Protocol.ChangedReplyCompletesRead` | Client.cpp:68 | a successful CD reply completes the client's read when the new path holds a '%' |
| `Protocol.StalledReplyShadowsNext` | Client.cpp:73-75 | a framed ECHO, INFO or unknown reply left in the buffer is what the next completed read extracts, whatever arrives after it |
| `Protocol.EchoInfoUnknownStallClient` | Client.cpp:68 | the framed replies to ECHO, INFO and unrecognised requests do not complete the client's read |

## Left out

- All asio I/O and the event loop (`async_read_until`, `async_write`, `async_accept`, `async_resolve`, `async_connect`, `io_service.run`, `TelemetryServer::do_accept`): completions are method calls with an `ok` flag.
- The client's second thread and `asio::post`: the posted bodies of `write` and `close` are sequential methods, and no interleaving beyond explicit completion calls is modelled.
- The server's streambuf handling (the empty delimiter of `async_read_until`, `getline`, `consume`): the request arrives as a parameter of `OnReadComplete`.
- Stalled replies: a reply that does not complete a read stays in the client's buffer, and the next read that completes extracts it (`Protocol.StalledReplyShadowsNext`); the model keeps no buffer across reads, so the whole sequence of extracted messages over a session is not modelled.
- The client's `buffer_.consume(length)` and any bytes left after it; the read re-armed by `do_read` at Client.cpp:79 is not tracked, since the client model has no read state.
- Operating-system calls (`get_current_dir_name`, `opendir`/`readdir`/`closedir`, `chdir`): their results are fields of `Dispatch.Environment`. A `NULL` from `get_current_dir_name` is not modelled.
- `rand()`, `srand(time(NULL))` and the static `first` flag: each `rand()` value is an arbitrary non-negative input draw.
- The float pressure (Server.cpp:78) and its `std::to_string` text: the model keeps the integer base from `generate_random_number(950, 1050)`, and the printed pressure is an input string.
- Console logging with `std::cout`/`std::cerr`, and `main` argument parsing and usage banners in both files.
- All of TelemetryFileProcessor.h (float statistics, Eigen regression, plotting, file reading): floating point and foreign libraries.
- `Telemetry.RandomInRange`: does not model 32-bit overflow of `(max + 1) - min` or the `RAND_MAX` bound, because every caller passes small constant bounds.
- `TelemetryClient.Client.RunInput`: the input is a finite sequence of lines. At end of input, `std::getline` keeps returning empty lines that the source would write forever; that is not modelled.
- `TelemetryClient.Client.constructor`: the client starts connected, because name resolution and connect are left out.
- `Session.TelemetrySession`: the shared-pointer lifetime of a session is not modelled. A session with nothing pending is one the source releases.

## Findings

| source | as written | input that shows it | evidently intended | confidence | as-written member | corrected member |
|---|---|---|---|---|---|---|
| Client.cpp:78 | the read completion calls `do_write()` even while a write is in flight | write two lines; the first write completes; a reply holding '%' arrives while the second is being written | writes start only from `write` on an empty queue and from the write completion, so at most one write is in flight | not executed | `TelemetryClient.DoubleWriteScenario` | `TelemetryClient.Client.OnReadCompleteSerialized` |
