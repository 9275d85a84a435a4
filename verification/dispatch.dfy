/**
 * The decision TelemetrySession::handle_request takes on one request: either a
 * response text for do_write, or closing the socket with no response.  What
 * the handlers ask of the operating system (the current directory, readdir,
 * chdir) and of rand() is carried by an Environment.
 */
module Dispatch {
  import opened Text
  import opened Directory
  import opened Telemetry

  /** The commands handle_request tells apart, in the order it tests them. */
  datatype Command =
    | Echo
    | Quit
    | Info
    | List
    | ChangeDirectory(dir: string)
    | TelemetryData
    | Unknown

  /** What handle_request does with a request. */
  datatype Outcome = Respond(response: string) | CloseSocket

  /** What the handlers observe outside the session. */
  datatype Environment = Environment(
    cwd: string,                                   // getCurrentDirectory() when LIST runs
    readDirectory: string -> Option<seq<string>>,  // opendir/readdir on a path; None when it cannot be opened
    changeDirectory: string -> Option<string>,     // chdir on a path; the new current directory when it succeeds
    draws: Draws,                                  // the values rand() returns to generate_telemetry_data
    pressureText: string)                          // std::to_string of the float pressure

  const InfoResponse: string := "Server information ... : \n"
  const ChangedPrefix: string := "Directory changed to: "
  const ChangeFailedResponse: string := "Failed to change directory\n"
  const UnknownResponse: string := "Unknown request\n"

  /** The requests matched in full. */
  const ExactCommands: set<string> := {"ECHO", "QUIT", "INFO", "LIST", "TELEMETRYDATA"}

  /** request.substr(0, 3) == "CD " */
  predicate HasCdPrefix(request: string) {
    Substr(request, 0, 3) == "CD "
  }

  predicate Recognized(request: string) {
    request in ExactCommands || HasCdPrefix(request)
  }

  /** The if/else chain of handle_request, as a classification of the request. */
  function Parse(request: string): (c: Command)
    ensures c == Echo <==> request == "ECHO"
    ensures c == Quit <==> request == "QUIT"
    ensures c == Info <==> request == "INFO"
    ensures c == List <==> request == "LIST"
    ensures c == TelemetryData <==> request == "TELEMETRYDATA"
    ensures c.ChangeDirectory? <==> |request| >= 3 && request[..3] == "CD "
    ensures c.ChangeDirectory? ==> c.dir == request[3..]
    ensures c == Unknown <==> !Recognized(request)
  {
    if request == "ECHO" then Echo
    else if request == "QUIT" then Quit
    else if request == "INFO" then Info
    else if request == "LIST" then List
    else if HasCdPrefix(request) then
      assert Substr("TELEMETRYDATA", 0, 3) == "TEL";
      ChangeDirectory(Substr(request, 3, |request|))
    else if request == "TELEMETRYDATA" then TelemetryData
    else Unknown
  }

  /** The request text that names a command. */
  function Render(c: Command): string
    requires !c.Unknown?
  {
    match c
    case Echo => "ECHO"
    case Quit => "QUIT"
    case Info => "INFO"
    case List => "LIST"
    case ChangeDirectory(dir) => "CD " + dir
    case TelemetryData => "TELEMETRYDATA"
  }

  /** Every command is recognised back from its request text. */
  lemma ParseRender(c: Command)
    requires !c.Unknown?
    ensures Parse(Render(c)) == c
  {
    if c.ChangeDirectory? {
      var r := Render(c);
      assert r[..3] == "CD ";
      assert r[3..] == c.dir;
    }
  }

  /** A recognised request is exactly the text of the command it is recognised as. */
  lemma RenderParse(request: string)
    requires Recognized(request)
    ensures Render(Parse(request)) == request
  {
    if HasCdPrefix(request) {
      assert request == request[..3] + request[3..];
    }
  }

  /** The response (or the close) each command produces. */
  function Handle(c: Command, env: Environment): (o: Outcome)
    ensures o.CloseSocket? <==> c == Quit
  {
    match c
    case Echo => Respond("ECHO" + "\n")
    case Quit => CloseSocket
    case Info => Respond(InfoResponse)
    case List => Respond(JoinLines(Contents(env.readDirectory(env.cwd))))
    case ChangeDirectory(dir) =>
      (match env.changeDirectory(dir)
       case Some(now) => Respond(ChangedPrefix + now + "\n")
       case None => Respond(ChangeFailedResponse))
    case TelemetryData => Respond(Report(Generate(env.draws), env.pressureText))
    case Unknown => Respond(UnknownResponse)
  }

  /** handle_request: classify the request, then run its handler. */
  function HandleRequest(request: string, env: Environment): (o: Outcome)
    ensures o.CloseSocket? <==> request == "QUIT"
    ensures request == "ECHO" ==> o == Respond("ECHO\n")
    ensures request == "INFO" ==> o == Respond(InfoResponse)
    ensures !Recognized(request) ==> o == Respond(UnknownResponse)
  {
    Handle(Parse(request), env)
  }

  /** The empty request, "CD" without its space, and lower-case commands are all unknown. */
  lemma UnknownExamples(env: Environment)
    ensures HandleRequest("", env) == Respond(UnknownResponse)
    ensures HandleRequest("CD", env) == Respond(UnknownResponse)
    ensures HandleRequest("echo", env) == Respond(UnknownResponse)
    ensures HandleRequest("QUIT ", env) == Respond(UnknownResponse)
  {
    assert Substr("CD", 0, 3) == "CD";
    assert Substr("echo", 0, 3) == "ech";
    assert Substr("QUIT ", 0, 3) == "QUI";
  }

  /**
   * "CD " followed by any text hands exactly that text to chdir, and answers
   * with the new current directory or with the failure message.
   */
  lemma ChangeDirectoryRequest(dir: string, env: Environment)
    ensures HandleRequest("CD " + dir, env)
         == match env.changeDirectory(dir)
            case Some(now) => Respond(ChangedPrefix + now + "\n")
            case None => Respond(ChangeFailedResponse)
  {
    ParseRender(ChangeDirectory(dir));
  }

  /** LIST answers with the listing of the current directory. */
  lemma ListRequest(env: Environment)
    ensures HandleRequest("LIST", env) == Respond(JoinLines(Contents(env.readDirectory(env.cwd))))
  {
    assert Substr("LIST", 0, 3) == "LIS";
  }

  /** TELEMETRYDATA answers with a report whose readings lie in their generator ranges. */
  lemma TelemetryRequest(env: Environment)
    ensures var r := Generate(env.draws);
            && HandleRequest("TELEMETRYDATA", env) == Respond(Report(r, env.pressureText))
            && -40 <= r.temperature <= 50 && 0 <= r.humidity <= 100 && 0 <= r.windSpeed <= 20
  {
    assert Substr("TELEMETRYDATA", 0, 3) == "TEL";
  }
}
