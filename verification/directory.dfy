/**
 * The directory helpers behind the server's LIST command: the name filter of
 * getDirectoryContents and the newline-joined text of listDirectory.  The
 * operating system's opendir/readdir is an input: `None` when the directory
 * cannot be opened, otherwise every name readdir returns, in its order.
 */
module Directory {
  import opened Text

  /** getDirectoryContents keeps every name except the current and the parent directory. */
  predicate IsListed(name: string) {
    name != "." && name != ".."
  }

  /** The names getDirectoryContents keeps from the readdir stream `raw`, in the order read. */
  function VisibleNames(raw: seq<string>): (names: seq<string>)
    ensures forall i :: 0 <= i < |names| ==> IsListed(names[i])
    ensures |names| <= |raw|
  {
    if raw == [] then []
    else
      var last := raw[|raw| - 1];
      VisibleNames(raw[..|raw| - 1]) + (if IsListed(last) then [last] else [])
  }

  /** A name comes through the filter if and only if it was read and is neither "." nor "..". */
  lemma {:induction false} VisibleNamesMembers(raw: seq<string>, name: string)
    ensures name in VisibleNames(raw) <==> name in raw && IsListed(name)
    decreases |raw|
  {
    if raw != [] {
      var init, last := raw[..|raw| - 1], raw[|raw| - 1];
      VisibleNamesMembers(init, name);
      assert raw == init + [last];
    }
  }

  /** Filtering a stream in two pieces filters each piece and keeps their order. */
  lemma {:induction false} VisibleNamesAppend(a: seq<string>, b: seq<string>)
    ensures VisibleNames(a + b) == VisibleNames(a) + VisibleNames(b)
    decreases |b|
  {
    if b == [] {
      assert a + b == a;
    } else {
      var b', last := b[..|b| - 1], b[|b| - 1];
      var tail := if IsListed(last) then [last] else [];
      VisibleNamesAppend(a, b');
      assert (a + b)[..|a + b| - 1] == a + b';
      assert (a + b)[|a + b| - 1] == last;
      assert VisibleNames(a + b) == VisibleNames(a + b') + tail;
      assert VisibleNames(b) == VisibleNames(b') + tail;
    }
  }

  /** A stream without "." and ".." comes through the filter unchanged. */
  lemma {:induction false} VisibleNamesKeepsListed(raw: seq<string>)
    requires forall i :: 0 <= i < |raw| ==> IsListed(raw[i])
    ensures VisibleNames(raw) == raw
    decreases |raw|
  {
    if raw != [] {
      var init, last := raw[..|raw| - 1], raw[|raw| - 1];
      VisibleNamesKeepsListed(init);
      assert init + [last] == raw;
    }
  }

  /** Filtering twice is filtering once. */
  lemma VisibleNamesIdempotent(raw: seq<string>)
    ensures VisibleNames(VisibleNames(raw)) == VisibleNames(raw)
  {
    VisibleNamesKeepsListed(VisibleNames(raw));
  }

  /** What getDirectoryContents returns for an opendir/readdir outcome. */
  function Contents(stream: Option<seq<string>>): (names: seq<string>)
    ensures stream.None? ==> names == []
    ensures stream.Some? ==> |names| <= |stream.value|
    ensures forall i :: 0 <= i < |names| ==> IsListed(names[i])
  {
    match stream
    case None => []
    case Some(raw) => VisibleNames(raw)
  }

  /** getDirectoryContents: read the stream, push back every listed name. */
  method DirectoryContents(stream: Option<seq<string>>) returns (contents: seq<string>)
    ensures stream.None? ==> contents == []
    ensures stream.Some? ==> contents == VisibleNames(stream.value)
  {
    contents := [];
    if stream.Some? {
      var raw := stream.value;
      var i := 0;
      while i < |raw|
        invariant 0 <= i <= |raw|
        invariant contents == VisibleNames(raw[..i])
      {
        var name := raw[i];
        assert raw[..i + 1][..i] == raw[..i];
        if name != "." && name != ".." {
          contents := contents + [name];
        }
        i := i + 1;
      }
      assert raw[..i] == raw;
    }
  }

  /** listDirectory: read the directory, then append each entry and a newline. */
  method ListDirectory(stream: Option<seq<string>>) returns (result: string)
    ensures result == JoinLines(Contents(stream))
  {
    var contents := DirectoryContents(stream);
    result := "";
    var i := 0;
    while i < |contents|
      invariant 0 <= i <= |contents|
      invariant result == JoinLines(contents[..i])
    {
      assert contents[..i + 1][..i] == contents[..i];
      result := result + (contents[i] + "\n");
      i := i + 1;
    }
    assert contents[..i] == contents;
  }

  /**
   * What LIST sends can be read back: when no name read holds a newline, the
   * lines of the listing are exactly the kept names, in order.
   */
  lemma ListingLines(raw: seq<string>)
    requires forall i :: 0 <= i < |raw| ==> '\n' !in raw[i]
    ensures SplitLines(JoinLines(Contents(Some(raw)))) == VisibleNames(raw)
  {
    var names := VisibleNames(raw);
    forall i | 0 <= i < |names|
      ensures '\n' !in names[i]
    {
      VisibleNamesMembers(raw, names[i]);
      var j :| 0 <= j < |raw| && raw[j] == names[i];
    }
    SplitJoinLines(names);
  }
}
