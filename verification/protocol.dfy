/**
 * The server's framing against the client's reader.  The server ends every
 * response with '!'; the client's read completes only when a '%' has arrived
 * and then takes the text before the first '!'.  The fixed replies hold no
 * '%', so they never complete a client read by themselves; the telemetry
 * report always holds one (the humidity unit), and a listing or a changed
 * directory holds one when a name or the path does.
 */
module Protocol {
  import opened Text
  import opened Telemetry
  import Dispatch
  import Session
  import TelemetryClient
  import Directory

  /** The client extracts exactly the response from a framed reply, whatever follows it. */
  lemma ClientReadsFramedResponse(response: string, rest: string)
    requires '!' !in response
    ensures TelemetryClient.ExtractMessage(Session.Frame(response) + rest) == response
  {
    TelemetryClient.ExtractMessageOfFrame(response, rest);
  }

  lemma IntToStringPlain(n: int)
    ensures '!' !in IntToString(n) && '%' !in IntToString(n)
  {
    IntToStringHasNo(n, '!');
    IntToStringHasNo(n, '%');
  }

  /** The telemetry report holds a '%' and, when the printed pressure holds none, no '!'. */
  lemma ReportDelimiters(r: Reading, pressureText: string)
    ensures '%' in Report(r, pressureText)
    ensures '!' !in pressureText ==> '!' !in Report(r, pressureText)
  {
    var lines := ReportLineTexts(r, pressureText);
    var h := HumidityLine(r);
    assert h[|h| - 1] == '%' && lines[1] == h;
    JoinLinesHas(lines, '%');
    IntToStringPlain(r.temperature);
    IntToStringPlain(r.humidity);
    IntToStringPlain(r.windSpeed);
    JoinLinesHas(lines, '!');
  }

  /**
   * The answer to TELEMETRYDATA completes the client's read, and the client
   * gets back the whole report.
   */
  lemma TelemetryReplyReachesClient(env: Dispatch.Environment)
    requires '!' !in env.pressureText
    ensures var response := Dispatch.HandleRequest("TELEMETRYDATA", env).response;
            && TelemetryClient.ReadLength(Session.Frame(response)).Some?
            && TelemetryClient.ExtractMessage(Session.Frame(response)) == response
  {
    Dispatch.TelemetryRequest(env);
    var response := Dispatch.HandleRequest("TELEMETRYDATA", env).response;
    ReportDelimiters(Generate(env.draws), env.pressureText);
    assert Session.Frame(response) == response + ['!'] + [];
    ClientReadsFramedResponse(response, []);
  }

  /** A fixed reply with no '%' does not complete the client's read on its own. */
  lemma FixedReplyStallsClient(response: string)
    requires response in {"ECHO\n", Dispatch.InfoResponse, Dispatch.UnknownResponse, Dispatch.ChangeFailedResponse}
    ensures TelemetryClient.ReadLength(Session.Frame(response)).None?
  {
  }

  /** In particular the answers to ECHO, to INFO and to any unrecognised request leave the client waiting. */
  lemma EchoInfoUnknownStallClient(request: string, env: Dispatch.Environment)
    requires request == "ECHO" || request == "INFO" || !Dispatch.Recognized(request)
    ensures TelemetryClient.ReadLength(Session.Frame(Dispatch.HandleRequest(request, env).response)).None?
  {
    FixedReplyStallsClient(Dispatch.HandleRequest(request, env).response);
  }

  /** A LIST reply completes the client's read when a listed name holds a '%'. */
  lemma ListReplyCompletesRead(env: Dispatch.Environment, name: string)
    requires name in Directory.Contents(env.readDirectory(env.cwd)) && '%' in name
    ensures TelemetryClient.ReadLength(Session.Frame(Dispatch.HandleRequest("LIST", env).response)).Some?
  {
    Dispatch.ListRequest(env);
    var names := Directory.Contents(env.readDirectory(env.cwd));
    var i :| 0 <= i < |names| && names[i] == name;
    JoinLinesHas(names, '%');
    var response := JoinLines(names);
    assert Session.Frame(response)[..|response|] == response;
  }

  /** A successful CD reply completes the client's read when the new path holds a '%'. */
  lemma ChangedReplyCompletesRead(dir: string, env: Dispatch.Environment)
    requires env.changeDirectory(dir).Some? && '%' in env.changeDirectory(dir).value
    ensures TelemetryClient.ReadLength(Session.Frame(Dispatch.HandleRequest("CD " + dir, env).response)).Some?
  {
    Dispatch.ChangeDirectoryRequest(dir, env);
    var now := env.changeDirectory(dir).value;
    var response := Dispatch.ChangedPrefix + now + "\n";
    assert response[|Dispatch.ChangedPrefix|..|Dispatch.ChangedPrefix| + |now|] == now;
    assert Session.Frame(response)[..|response|] == response;
  }

  /**
   * A stalled reply stays buffered ahead of whatever arrives next, so the
   * read that finally completes extracts the stalled reply, not the new one.
   */
  lemma StalledReplyShadowsNext(request: string, env: Dispatch.Environment, next: string)
    requires request == "ECHO" || request == "INFO" || !Dispatch.Recognized(request)
    ensures var stalled := Dispatch.HandleRequest(request, env).response;
            TelemetryClient.ExtractMessage(Session.Frame(stalled) + next) == stalled
  {
    var stalled := Dispatch.HandleRequest(request, env).response;
    assert '!' !in stalled;
    ClientReadsFramedResponse(stalled, next);
  }
}
