/**
 * One server connection, TelemetrySession: a read is started, the request it
 * delivers goes through handle_request, the response goes out through
 * do_write with a "!" appended, and a successful write starts the next read.
 * Completions of the asynchronous read and write are method calls carrying
 * whether the operation succeeded.
 */
module Session {
  import opened Text
  import Dispatch

  /** The suffix do_write appends to every response. */
  const Terminator: char := '!'

  /** do_write's message: the response with exactly one terminator appended. */
  function Frame(response: string): (message: string)
    ensures |message| == |response| + 1
    ensures message[..|response|] == response
    ensures message[|response|] == Terminator
  {
    response + [Terminator]
  }

  /** The response inside a message that do_write could have sent. */
  function Unframe(message: string): (response: Option<string>)
    ensures response.Some? <==> |message| >= 1 && message[|message| - 1] == Terminator
  {
    if |message| >= 1 && message[|message| - 1] == Terminator then Some(message[..|message| - 1])
    else None
  }

  lemma UnframeFrame(response: string)
    ensures Unframe(Frame(response)) == Some(response)
  {
  }

  lemma FrameUnframe(message: string)
    requires Unframe(message).Some?
    ensures Frame(Unframe(message).value) == message
  {
  }

  /** Framing keeps responses apart: two responses are sent alike only if they are alike. */
  lemma FrameInjective(r1: string, r2: string)
    requires Frame(r1) == Frame(r2)
    ensures r1 == r2
  {
    UnframeFrame(r1);
    UnframeFrame(r2);
  }

  class TelemetrySession {
    /** socket_.is_open() */
    var open: bool
    /** an async_read_until of this session is pending */
    var reading: bool
    /** an async_write of this session is pending */
    var writing: bool
    /** every message handed to async_write, in order */
    ghost var transmitted: seq<string>

    /**
     * Strict request/response: never a read and a write at once, and nothing
     * pending once the socket is closed.
     */
    ghost predicate Valid()
      reads this
    {
      && !(reading && writing)
      && (!open ==> !reading && !writing)
    }

    /** The session over a freshly accepted socket. */
    constructor ()
      ensures Valid()
      ensures open && !reading && !writing && transmitted == []
    {
      open, reading, writing := true, false, false;
      transmitted := [];
    }

    /** start(), and do_read(): a read is started only on an open socket. */
    method Start()
      requires Valid() && !reading && !writing
      modifies this
      ensures Valid()
      ensures reading == open && !writing
      ensures open == old(open) && transmitted == old(transmitted)
    {
      DoRead();
    }

    method DoRead()
      requires Valid() && !writing
      modifies this
      ensures Valid()
      ensures reading == (old(reading) || open)
      ensures !writing && open == old(open) && transmitted == old(transmitted)
    {
      if open {
        reading := true;
      }
    }

    /** do_write: send the response with the terminator appended. */
    method DoWrite(response: string)
      requires Valid() && open && !reading && !writing
      modifies this
      ensures Valid()
      ensures writing && !reading && open
      ensures transmitted == old(transmitted) + [Frame(response)]
    {
      var message := response + "!";
      assert message == Frame(response);
      writing := true;
      transmitted := transmitted + [message];
    }

    /** handle_request: close on QUIT, otherwise write the handler's response. */
    method HandleRequest(request: string, env: Dispatch.Environment)
      requires Valid() && open && !reading && !writing
      modifies this
      ensures Valid() && !reading
      ensures request == "QUIT" ==> !open && !writing && transmitted == old(transmitted)
      ensures request != "QUIT" ==>
                open && writing
                && transmitted == old(transmitted) + [Frame(Dispatch.HandleRequest(request, env).response)]
    {
      var outcome := Dispatch.HandleRequest(request, env);
      match outcome
      case CloseSocket =>
        open := false;
      case Respond(response) =>
        DoWrite(response);
    }

    /**
     * Completion of the read: on success the request is handled, on an error
     * nothing follows (the session is released).
     */
    method OnReadComplete(ok: bool, request: string, env: Dispatch.Environment)
      requires Valid() && reading
      modifies this
      ensures Valid() && !reading
      ensures !ok ==> open == old(open) && !writing && transmitted == old(transmitted)
      ensures ok && request == "QUIT" ==> !open && !writing && transmitted == old(transmitted)
      ensures ok && request != "QUIT" ==>
                open && writing
                && transmitted == old(transmitted) + [Frame(Dispatch.HandleRequest(request, env).response)]
    {
      reading := false;
      if ok {
        HandleRequest(request, env);
      }
    }

    /** Completion of the write: on success the next read starts, on an error nothing follows. */
    method OnWriteComplete(ok: bool)
      requires Valid() && writing
      modifies this
      ensures Valid() && !writing
      ensures reading == ok
      ensures open == old(open) && transmitted == old(transmitted)
    {
      writing := false;
      if ok {
        DoRead();
      }
    }
  }

  /**
   * One connection receiving ECHO, TELEMETRYDATA and QUIT: the first two
   * responses go out framed and in order, QUIT closes the socket with nothing
   * sent and nothing pending.
   */
  method EchoTelemetryQuit(env: Dispatch.Environment) returns (s: TelemetrySession)
    ensures s.Valid()
    ensures s.transmitted
         == [Frame("ECHO\n"), Frame(Dispatch.HandleRequest("TELEMETRYDATA", env).response)]
    ensures !s.open && !s.reading && !s.writing
  {
    s := new TelemetrySession();
    s.Start();
    s.OnReadComplete(true, "ECHO", env);
    s.OnWriteComplete(true);
    s.OnReadComplete(true, "TELEMETRYDATA", env);
    s.OnWriteComplete(true);
    s.OnReadComplete(true, "QUIT", env);
  }
}
