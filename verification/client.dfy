/**
 * The client: an outbound queue of user lines (write, do_write and the write
 * completion), the read completion that extracts one '!'-delimited message,
 * and the input loop of main with its "exit" sentinel.  The bodies that the
 * source posts onto the I/O thread run here as ordinary sequential methods;
 * completions of asynchronous operations are method calls carrying whether
 * the operation succeeded.
 */
module TelemetryClient {
  import opened Text

  /** async_read_until(socket_, buffer_, '%') completes once the buffered data holds this byte. */
  const ReadDelimiter: char := '%'

  /** std::getline(stream, message, '!') stops at this byte. */
  const MessageDelimiter: char := '!'

  /** The input line that ends the client. */
  const ExitCommand: string := "exit"

  /**
   * The length async_read_until reports for the buffered data: everything up
   * to and including the first '%', or nothing while no '%' has arrived.
   */
  function ReadLength(data: string): (n: Option<nat>)
    ensures n.Some? <==> ReadDelimiter in data
    ensures n.Some? ==> 1 <= n.value <= |data| && data[n.value - 1] == ReadDelimiter
    ensures n.Some? ==> forall i :: 0 <= i < n.value - 1 ==> data[i] != ReadDelimiter
  {
    var k := IndexOf(data, ReadDelimiter);
    if k < |data| then Some(k + 1) else None
  }

  /**
   * The message the read handler takes out of the buffered text: the text
   * before the first '!', without the '!', or the whole text when there is
   * no '!'.
   */
  function ExtractMessage(buffered: string): (message: string)
    ensures MessageDelimiter !in message
    ensures |message| <= |buffered| && buffered[..|message|] == message
    ensures |message| < |buffered| ==> buffered[|message|] == MessageDelimiter
  {
    buffered[..IndexOf(buffered, MessageDelimiter)]
  }

  /** A '!'-free text followed by '!' and anything else is extracted exactly. */
  lemma ExtractMessageOfFrame(text: string, rest: string)
    requires MessageDelimiter !in text
    ensures ExtractMessage(text + [MessageDelimiter] + rest) == text
  {
    IndexOfAfterHead(text, MessageDelimiter, rest);
    assert (text + [MessageDelimiter] + rest)[..|text|] == text;
  }

  /** What main does with one input line. */
  datatype InputAction = CloseClient | WriteLine(line: string)

  function InputDecision(line: string): (a: InputAction)
    ensures a == CloseClient <==> line == ExitCommand
    ensures a.WriteLine? ==> a.line == line
  {
    if line == ExitCommand then CloseClient else WriteLine(line)
  }

  /** The lines main hands to write: every line before the first "exit". */
  function Outgoing(lines: seq<string>): (sent: seq<string>)
    ensures ExitCommand !in sent
  {
    if lines == [] || lines[0] == ExitCommand then [] else [lines[0]] + Outgoing(lines[1..])
  }

  /** Outgoing is the prefix before the first "exit", and the "exit" follows it when there is one. */
  lemma {:induction false} OutgoingIsPrefix(lines: seq<string>)
    ensures |Outgoing(lines)| <= |lines| && lines[..|Outgoing(lines)|] == Outgoing(lines)
    ensures |Outgoing(lines)| < |lines| <==> ExitCommand in lines
    ensures |Outgoing(lines)| < |lines| ==> lines[|Outgoing(lines)|] == ExitCommand
    decreases |lines|
  {
    if lines != [] && lines[0] != ExitCommand {
      var rest := lines[1..];
      OutgoingIsPrefix(rest);
      assert lines == [lines[0]] + rest;
      assert ExitCommand in lines <==> ExitCommand in rest;
    }
  }

  class Client {
    /** write_msgs_: the messages waiting to be written, front first */
    var writeMsgs: seq<string>
    /** the socket has not been closed by the client */
    var open: bool
    /** async_write operations started and not yet completed */
    ghost var inFlight: nat
    /** every message handed to async_write, in order */
    ghost var transmitted: seq<string>
    /** a write completion has called pop_front on an empty queue, which C++ leaves undefined */
    ghost var poppedEmpty: bool

    /**
     * The discipline write and the write completion keep: at most one write
     * in flight; while one is, the queue is non-empty and its front is the
     * message last handed to async_write; a queued message with no write in
     * flight only remains after the socket was closed; the queue was never
     * popped empty.
     */
    ghost predicate SingleWriter()
      reads this
    {
      && inFlight <= 1
      && (inFlight == 1 ==> writeMsgs != [] && transmitted != [] && transmitted[|transmitted| - 1] == writeMsgs[0])
      && (inFlight == 0 && writeMsgs != [] ==> !open)
      && !poppedEmpty
    }

    /** A connected client with nothing queued. */
    constructor ()
      ensures SingleWriter()
      ensures writeMsgs == [] && open && inFlight == 0 && transmitted == []
    {
      writeMsgs, open := [], true;
      inFlight, transmitted, poppedEmpty := 0, [], false;
    }

    /** do_write: hand the front of the queue to async_write, if there is one. */
    method DoWrite()
      modifies this
      ensures writeMsgs == old(writeMsgs) && open == old(open) && poppedEmpty == old(poppedEmpty)
      ensures old(writeMsgs) == [] ==> inFlight == old(inFlight) && transmitted == old(transmitted)
      ensures old(writeMsgs) != [] ==>
                inFlight == old(inFlight) + 1 && transmitted == old(transmitted) + [old(writeMsgs)[0]]
    {
      if writeMsgs != [] {
        inFlight := inFlight + 1;
        transmitted := transmitted + [writeMsgs[0]];
      }
    }

    /** The posted body of write: push back, and start writing only if the queue was empty. */
    method Write(msg: string)
      modifies this
      ensures writeMsgs == old(writeMsgs) + [msg]
      ensures open == old(open) && poppedEmpty == old(poppedEmpty)
      ensures old(writeMsgs) == [] ==> inFlight == old(inFlight) + 1 && transmitted == old(transmitted) + [msg]
      ensures old(writeMsgs) != [] ==> inFlight == old(inFlight) && transmitted == old(transmitted)
      ensures old(SingleWriter()) ==> SingleWriter()
    {
      var writeInProgress := writeMsgs != [];
      writeMsgs := writeMsgs + [msg];
      if !writeInProgress {
        DoWrite();
      }
    }

    /**
     * Completion of one async_write.  On success the front is popped and the
     * next write starts if the queue is still non-empty; on an error the
     * socket is closed and the queue is left alone.
     */
    method OnWriteComplete(ok: bool)
      requires inFlight > 0
      modifies this
      ensures inFlight == old(inFlight) - 1 + (if ok && |old(writeMsgs)| > 1 then 1 else 0)
      ensures ok && old(writeMsgs) != [] ==>
                writeMsgs == old(writeMsgs)[1..] && open == old(open) && poppedEmpty == old(poppedEmpty)
                && transmitted == old(transmitted) + (if writeMsgs != [] then [writeMsgs[0]] else [])
      ensures ok && old(writeMsgs) == [] ==>
                writeMsgs == [] && poppedEmpty && open == old(open) && transmitted == old(transmitted)
      ensures !ok ==>
                writeMsgs == old(writeMsgs) && !open && poppedEmpty == old(poppedEmpty)
                && transmitted == old(transmitted)
      ensures old(SingleWriter()) ==> SingleWriter()
    {
      inFlight := inFlight - 1;
      if ok {
        if writeMsgs == [] {
          poppedEmpty := true;
        } else {
          writeMsgs := writeMsgs[1..];
          if writeMsgs != [] {
            DoWrite();
          }
        }
      } else {
        open := false;
      }
    }

    /**
     * Completion of the read, as the source has it: the message is taken out
     * of the buffered text and do_write is called whether or not a write is
     * already in flight.  The read is then started again (not tracked here).
     */
    method OnReadComplete(ok: bool, buffered: string) returns (message: string)
      requires ok ==> ReadDelimiter in buffered
      modifies this
      ensures ok ==> message == ExtractMessage(buffered)
      ensures ok ==> open == old(open) && writeMsgs == old(writeMsgs) && poppedEmpty == old(poppedEmpty)
      ensures ok && old(writeMsgs) != [] ==>
                inFlight == old(inFlight) + 1 && transmitted == old(transmitted) + [old(writeMsgs)[0]]
      ensures ok && old(writeMsgs) == [] ==> inFlight == old(inFlight) && transmitted == old(transmitted)
      ensures !ok ==>
                !open && writeMsgs == old(writeMsgs) && inFlight == old(inFlight)
                && transmitted == old(transmitted) && poppedEmpty == old(poppedEmpty)
    {
      if ok {
        message := ExtractMessage(buffered);
        DoWrite();
      } else {
        message := "";
        open := false;
      }
    }

    /**
     * Completion of the read without the do_write call: writes are started
     * only by write and by the write completion, which keeps SingleWriter.
     */
    method OnReadCompleteSerialized(ok: bool, buffered: string) returns (message: string)
      requires ok ==> ReadDelimiter in buffered
      modifies this
      ensures ok ==> message == ExtractMessage(buffered)
      ensures writeMsgs == old(writeMsgs) && inFlight == old(inFlight)
      ensures transmitted == old(transmitted) && poppedEmpty == old(poppedEmpty)
      ensures open == (old(open) && ok)
      ensures old(SingleWriter()) ==> SingleWriter()
    {
      if ok {
        message := ExtractMessage(buffered);
      } else {
        message := "";
        open := false;
      }
    }

    /** The posted body of close. */
    method Close()
      modifies this
      ensures !open
      ensures writeMsgs == old(writeMsgs) && inFlight == old(inFlight)
      ensures transmitted == old(transmitted) && poppedEmpty == old(poppedEmpty)
      ensures old(SingleWriter()) ==> SingleWriter()
    {
      open := false;
    }

    /**
     * main's input loop over the lines the user types: "exit" closes the
     * client and ends the loop, every other line goes to write unchanged.
     * No write completes while the loop runs.
     */
    method RunInput(lines: seq<string>)
      requires SingleWriter()
      modifies this
      ensures SingleWriter()
      ensures writeMsgs == old(writeMsgs) + Outgoing(lines)
      ensures open == (old(open) && ExitCommand !in lines)
      ensures old(writeMsgs) == [] && Outgoing(lines) != [] ==>
                inFlight == 1 && transmitted == old(transmitted) + [Outgoing(lines)[0]]
      ensures old(writeMsgs) != [] || Outgoing(lines) == [] ==>
                inFlight == old(inFlight) && transmitted == old(transmitted)
    {
      OutgoingIsPrefix(lines);
      var sent := Outgoing(lines);
      var i := 0;
      while i < |lines|
        invariant 0 <= i <= |sent|
        invariant lines[..i] == sent[..i]
        invariant SingleWriter()
        invariant writeMsgs == old(writeMsgs) + sent[..i]
        invariant open == old(open)
        invariant old(writeMsgs) == [] && i > 0 ==> inFlight == 1 && transmitted == old(transmitted) + [sent[0]]
        invariant old(writeMsgs) != [] || i == 0 ==> inFlight == old(inFlight) && transmitted == old(transmitted)
        decreases |lines| - i
      {
        var input := lines[i];
        match InputDecision(input)
        case CloseClient =>
          Close();
          break;
        case WriteLine(line) =>
          assert i < |sent|;
          Write(line);
          assert sent[..i + 1] == sent[..i] + [line];
          i := i + 1;
      }
    }
  }

  /**
   * Two lines typed quickly, and the server's answer to the first arriving
   * while the second is being written: the read completion hands the second
   * line to async_write again, two writes are in flight, the second line is
   * transmitted twice, and the second write completion pops an empty queue.
   */
  method DoubleWriteScenario(first: string, second: string, reply: string) returns (c: Client)
    requires ReadDelimiter in reply
    ensures c.transmitted == [first, second, second]
    ensures c.writeMsgs == [] && c.poppedEmpty && !c.SingleWriter()
  {
    c := new Client();
    c.Write(first);
    c.Write(second);
    c.OnWriteComplete(true);
    assert c.writeMsgs == [second] && c.inFlight == 1;
    var message := c.OnReadComplete(true, reply);
    assert c.inFlight == 2;
    c.OnWriteComplete(true);
    c.OnWriteComplete(true);
  }

  /** With the serialized read completion the same events keep one write in flight. */
  method SerializedScenario(first: string, second: string, reply: string) returns (c: Client)
    requires ReadDelimiter in reply
    ensures c.transmitted == [first, second]
    ensures c.writeMsgs == [] && c.inFlight == 0 && c.SingleWriter()
  {
    c := new Client();
    c.Write(first);
    c.Write(second);
    c.OnWriteComplete(true);
    assert c.writeMsgs == [second] && c.inFlight == 1;
    var message := c.OnReadCompleteSerialized(true, reply);
    c.OnWriteComplete(true);
  }
}
