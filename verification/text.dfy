/**
 * String helpers shared by the server and the client: the library behaviour
 * they lean on (std::string::substr, std::to_string on an int, scanning for a
 * delimiter character) written out over `seq<char>`.
 */
module Text {

  datatype Option<T> = None | Some(value: T)

  /** Position of the first `c` in `s`, or `|s|` when `s` holds no `c`. */
  function IndexOf(s: string, c: char): (k: nat)
    ensures k <= |s|
    ensures forall i :: 0 <= i < k ==> s[i] != c
    ensures k < |s| ==> s[k] == c
  {
    if s == [] then 0
    else if s[0] == c then 0
    else 1 + IndexOf(s[1..], c)
  }

  /** The first occurrence of a character in a text made of a `c`-free head is right after the head. */
  lemma IndexOfAfterHead(head: string, c: char, tail: string)
    requires c !in head
    ensures IndexOf(head + [c] + tail, c) == |head|
  {
    var s := head + [c] + tail;
    assert s[|head|] == c;
  }

  /** std::string::substr(pos, count): at most `count` characters starting at `pos`. */
  function Substr(s: string, pos: nat, count: nat): string
    requires pos <= |s|
  {
    s[pos..if pos + count <= |s| then pos + count else |s|]
  }

  predicate IsDigit(c: char) {
    '0' <= c <= '9'
  }

  function DigitChar(d: nat): (c: char)
    requires d < 10
  {
    ('0' as int + d) as char
  }

  function DigitValue(c: char): nat
    requires IsDigit(c)
  {
    c as int - '0' as int
  }

  predicate AllDigits(s: string) {
    forall i :: 0 <= i < |s| ==> IsDigit(s[i])
  }

  /** Decimal digits of `n`, most significant first, without leading zeros. */
  function NatToString(n: nat): (s: string)
    ensures |s| >= 1 && AllDigits(s)
    ensures |s| > 1 ==> s[0] != '0'
    decreases n
  {
    if n < 10 then [DigitChar(n)]
    else NatToString(n / 10) + [DigitChar(n % 10)]
  }

  /** std::to_string on an int: a minus sign for negative values, then the decimal digits. */
  function IntToString(n: int): (s: string)
    ensures |s| >= 1
    ensures forall i :: 0 <= i < |s| ==> IsDigit(s[i]) || (i == 0 && s[i] == '-')
  {
    if n < 0 then "-" + NatToString(-n) else NatToString(n)
  }

  /** Value of a string of decimal digits. */
  function ParseNat(s: string): nat
    requires AllDigits(s)
  {
    if s == [] then 0
    else 10 * ParseNat(s[..|s| - 1]) + DigitValue(s[|s| - 1])
  }

  /** Reads back what IntToString writes: an optional minus sign and at least one digit. */
  function ParseInt(s: string): Option<int> {
    if |s| >= 2 && s[0] == '-' && AllDigits(s[1..]) then Some(0 - ParseNat(s[1..]) as int)
    else if |s| >= 1 && AllDigits(s) then Some(ParseNat(s))
    else None
  }

  lemma {:induction false} NatToStringRoundTrip(n: nat)
    ensures ParseNat(NatToString(n)) == n
    decreases n
  {
    if n >= 10 {
      NatToStringRoundTrip(n / 10);
      var s := NatToString(n);
      assert s[..|s| - 1] == NatToString(n / 10);
    }
  }

  /** The decimal text of an int determines the int. */
  lemma IntToStringRoundTrip(n: int)
    ensures ParseInt(IntToString(n)) == Some(n)
  {
    if n < 0 {
      NatToStringRoundTrip(-n);
      assert IntToString(n)[1..] == NatToString(-n);
    } else {
      NatToStringRoundTrip(n);
    }
  }

  /**
   * Splits a text into lines at each '\n'; a trailing '\n' ends the last line
   * and does not start an empty one.
   */
  function SplitLines(s: string): (lines: seq<string>)
    ensures forall i :: 0 <= i < |lines| ==> IndexOf(lines[i], '\n') == |lines[i]|
    decreases |s|
  {
    if s == [] then []
    else
      var k := IndexOf(s, '\n');
      if k == |s| then [s] else [s[..k]] + SplitLines(s[k + 1..])
  }

  /** Peeling one terminated line off the front of a text. */
  lemma SplitLinesCons(line: string, rest: string)
    requires '\n' !in line
    ensures SplitLines(line + "\n" + rest) == [line] + SplitLines(rest)
  {
    var s := line + "\n" + rest;
    IndexOfAfterHead(line, '\n', rest);
    assert s[..|line|] == line;
    assert s[|line| + 1..] == rest;
  }

  /** The lines concatenated, each followed by a newline (a `+= line + "\n"` loop). */
  function JoinLines(lines: seq<string>): string {
    if lines == [] then ""
    else JoinLines(lines[..|lines| - 1]) + lines[|lines| - 1] + "\n"
  }

  /** The sum over the lines of their length plus one for the newline. */
  function TotalLength(lines: seq<string>): nat {
    if lines == [] then 0
    else TotalLength(lines[..|lines| - 1]) + |lines[|lines| - 1]| + 1
  }

  lemma {:induction false} JoinLinesLength(lines: seq<string>)
    ensures |JoinLines(lines)| == TotalLength(lines)
    decreases |lines|
  {
    if lines != [] {
      JoinLinesLength(lines[..|lines| - 1]);
    }
  }

  lemma {:induction false} JoinLinesAppend(a: seq<string>, b: seq<string>)
    ensures JoinLines(a + b) == JoinLines(a) + JoinLines(b)
    decreases |b|
  {
    if b == [] {
      assert a + b == a;
    } else {
      var b' := b[..|b| - 1];
      JoinLinesAppend(a, b');
      assert (a + b)[..|a + b| - 1] == a + b';
    }
  }

  /** The joined text begins with the first line and its newline. */
  lemma JoinLinesCons(line: string, rest: seq<string>)
    ensures JoinLines([line] + rest) == line + "\n" + JoinLines(rest)
  {
    JoinLinesAppend([line], rest);
    assert [line][..0] == [];
  }

  /** Any character but the newline occurs in the joined text exactly when it occurs in a line. */
  lemma {:induction false} JoinLinesHas(lines: seq<string>, c: char)
    requires c != '\n'
    ensures c in JoinLines(lines) <==> exists i :: 0 <= i < |lines| && c in lines[i]
    decreases |lines|
  {
    if lines != [] {
      var init := lines[..|lines| - 1];
      JoinLinesHas(init, c);
      assert forall i :: 0 <= i < |init| ==> init[i] == lines[i];
      if c in lines[|lines| - 1] {
        assert c in JoinLines(lines);
      }
    }
  }

  /**
   * Joining loses nothing: when no line holds a newline, splitting the
   * joined text gives back exactly the lines, in order.
   */
  lemma {:induction false} SplitJoinLines(lines: seq<string>)
    requires forall i :: 0 <= i < |lines| ==> '\n' !in lines[i]
    ensures SplitLines(JoinLines(lines)) == lines
    decreases |lines|
  {
    if lines != [] {
      var line, rest := lines[0], lines[1..];
      assert lines == [line] + rest;
      JoinLinesCons(line, rest);
      SplitLinesCons(line, JoinLines(rest));
      SplitJoinLines(rest);
    }
  }
}

