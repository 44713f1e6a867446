/** The test proxy's handling of one client: it reads lines until a complete one arrives, looks for a
    `CONNECT host:port HTTP/d.d` request in them, connects to the destination and answers with a
    status line (a subset of the CONNECT method of section 9.3.6 of RFC 9110). */
module TestProxy {
  import opened Wrappers
  import opened Text

  /** The largest value `int.Parse` accepts. */
  const IntMax: int := 2147483647

  // ---------------------------------------------------------------------------------------------
  // Lines

  /** `PositionOf`: the first occurrence of a byte. */
  function IndexOf(buffer: seq<byte>, b: byte): (r: Option<nat>)
    ensures r.Some? ==> r.value < |buffer| && buffer[r.value] == b && b !in buffer[..r.value]
    ensures r.None? ==> b !in buffer
  {
    if buffer == [] then None
    else if buffer[0] == b then Some(0)
    else
      match IndexOf(buffer[1..], b)
      case None => None
      case Some(k) =>
        assert buffer[..k + 1] == [buffer[0]] + buffer[1..][..k];
        Some(k + 1)
  }

  /** The complete lines of a buffer, without their '\n', and the partial line after the last one. */
  function SplitLines(buffer: seq<byte>): (r: (seq<seq<byte>>, seq<byte>))
    decreases |buffer|
  {
    match IndexOf(buffer, NewLineByte)
    case None => ([], buffer)
    case Some(p) =>
      var tail := SplitLines(buffer[p + 1..]);
      ([buffer[..p]] + tail.0, tail.1)
  }

  /** The bytes of lines ended by '\n' each. */
  function JoinLines(lines: seq<seq<byte>>): seq<byte> {
    if lines == [] then [] else lines[0] + [NewLineByte] + JoinLines(lines[1..])
  }

  /** One step of `SplitLines`: the first line, then the split of what follows its '\n'. */
  lemma SplitLinesStep(buffer: seq<byte>, p: nat)
    requires IndexOf(buffer, NewLineByte) == Some(p)
    ensures SplitLines(buffer) == ([buffer[..p]] + SplitLines(buffer[p + 1..]).0, SplitLines(buffer[p + 1..]).1)
  {
  }

  /** Without a '\n' there is no line, and the whole buffer is the rest. */
  lemma SplitLinesAtEnd(buffer: seq<byte>)
    requires IndexOf(buffer, NewLineByte).None?
    ensures SplitLines(buffer) == ([], buffer)
  {
  }

  /** The message of a buffer is its first line's text and the message of what follows that line. */
  lemma MessageStep(buffer: seq<byte>, p: nat, nl: LineBreak)
    requires IndexOf(buffer, NewLineByte) == Some(p)
    ensures Message(SplitLines(buffer).0, nl) ==
      DecodeAscii(buffer[..p]) + nl.Chars() + Message(SplitLines(buffer[p + 1..]).0, nl)
    ensures SplitLines(buffer[p + 1..]).1 == SplitLines(buffer).1
  {
    SplitLinesStep(buffer, p);
    MessageCons(buffer[..p], SplitLines(buffer[p + 1..]).0, nl);
  }

  /** The bytes of a first line and the lines after it. */
  lemma JoinLinesCons(line: seq<byte>, lines: seq<seq<byte>>)
    ensures JoinLines([line] + lines) == line + [NewLineByte] + JoinLines(lines)
  {
    assert ([line] + lines)[1..] == lines;
  }

  /** Putting back one line and its '\n' in front of the bytes that followed it. */
  lemma JoinLinesStep(buffer: seq<byte>, p: nat, lines: seq<seq<byte>>, rest: seq<byte>)
    requires p < |buffer| && buffer[p] == NewLineByte
    requires JoinLines(lines) + rest == buffer[p + 1..]
    ensures JoinLines([buffer[..p]] + lines) + rest == buffer
  {
    var head := buffer[..p] + [NewLineByte];
    JoinLinesCons(buffer[..p], lines);
    assert (head + JoinLines(lines)) + rest == head + (JoinLines(lines) + rest);
    assert buffer == head + buffer[p + 1..];
  }

  /** Splitting loses nothing: the lines, each with its '\n', and then the rest give the buffer back. */
  lemma {:induction false} SplitLinesRoundTrip(buffer: seq<byte>)
    ensures JoinLines(SplitLines(buffer).0) + SplitLines(buffer).1 == buffer
    decreases |buffer|
  {
    var position := IndexOf(buffer, NewLineByte);
    if position.Some? {
      var p := position.value;
      var after := buffer[p + 1..];
      SplitLinesStep(buffer, p);
      SplitLinesRoundTrip(after);
      JoinLinesStep(buffer, p, SplitLines(after).0, SplitLines(after).1);
    }
  }

  /** No line and no rest holds a '\n', and there is a complete line exactly when the buffer holds
      a '\n'. */
  lemma {:induction false} SplitLinesSeparates(buffer: seq<byte>)
    ensures NewLineByte !in SplitLines(buffer).1
    ensures forall i :: 0 <= i < |SplitLines(buffer).0| ==> NewLineByte !in SplitLines(buffer).0[i]
    ensures SplitLines(buffer).0 != [] <==> NewLineByte in buffer
    decreases |buffer|
  {
    match IndexOf(buffer, NewLineByte)
    case None =>
    case Some(p) =>
      var after := buffer[p + 1..];
      SplitLinesSeparates(after);
      var lines := SplitLines(buffer).0;
      assert lines == [buffer[..p]] + SplitLines(after).0;
      forall i | 0 <= i < |lines|
        ensures NewLineByte !in lines[i]
      {
        if i > 0 {
          assert lines[i] == SplitLines(after).0[i - 1];
        }
      }
  }

  /** The `StringBuilder` text: each line ASCII-decoded, followed by the platform line break. */
  function Message(lines: seq<seq<byte>>, nl: LineBreak): string {
    if lines == [] then "" else DecodeAscii(lines[0]) + nl.Chars() + Message(lines[1..], nl)
  }

  /** `TryParseLines`: consumes every complete line of the buffer. It reports a line exactly when the
      message is non-empty, and the buffer is left just past the last '\n'. */
  method TryParseLines(buffer: seq<byte>, nl: LineBreak) returns (found: bool, message: string, rest: seq<byte>)
    ensures message == Message(SplitLines(buffer).0, nl)
    ensures rest == SplitLines(buffer).1
    ensures found <==> message != []
  {
    var output := "";
    rest := buffer;
    while true
      invariant Message(SplitLines(buffer).0, nl) == output + Message(SplitLines(rest).0, nl)
      invariant SplitLines(rest).1 == SplitLines(buffer).1
      decreases |rest|
    {
      var position := IndexOf(rest, NewLineByte);
      if position.None? {
        SplitLinesAtEnd(rest);
        break;
      }
      var p := position.value;
      var nextOutput, nextRest := output + DecodeAscii(rest[..p]) + nl.Chars(), rest[p + 1..];
      ParseStep(buffer, rest, output, p, nl, nextOutput, nextRest);
      output, rest := nextOutput, nextRest;
    }
    message := output;
    found := |message| != 0;
  }

  /** One turn of the loop of `TryParseLines`: taking the first line of what remains into the message
      keeps the message and the final rest unchanged. */
  lemma ParseStep(buffer: seq<byte>, rest: seq<byte>, output: string, p: nat, nl: LineBreak, nextOutput: string, nextRest: seq<byte>)
    requires IndexOf(rest, NewLineByte) == Some(p)
    requires Message(SplitLines(buffer).0, nl) == output + Message(SplitLines(rest).0, nl)
    requires SplitLines(rest).1 == SplitLines(buffer).1
    requires nextOutput == output + DecodeAscii(rest[..p]) + nl.Chars() && nextRest == rest[p + 1..]
    ensures Message(SplitLines(buffer).0, nl) == nextOutput + Message(SplitLines(nextRest).0, nl)
    ensures SplitLines(nextRest).1 == SplitLines(buffer).1 && |nextRest| < |rest|
  {
    MessageStep(rest, p, nl);
    Regroup(output, DecodeAscii(rest[..p]), nl.Chars(), Message(SplitLines(nextRest).0, nl));
  }

  /** Concatenation regrouped: a text appended piece by piece. */
  lemma Regroup(a: string, b: string, c: string, d: string)
    ensures a + ((b + c) + d) == ((a + b) + c) + d
  {
    assert (b + c) + d == b + (c + d);
    assert (a + b) + c == a + (b + c);
  }

  /** A message is non-empty exactly when it holds at least one line. */
  lemma MessageNonEmpty(lines: seq<seq<byte>>, nl: LineBreak)
    ensures Message(lines, nl) != [] <==> lines != []
  {
  }

  /** The message of a first line and the lines after it. */
  lemma MessageCons(line: seq<byte>, lines: seq<seq<byte>>, nl: LineBreak)
    ensures Message([line] + lines, nl) == DecodeAscii(line) + nl.Chars() + Message(lines, nl)
  {
    assert ([line] + lines)[1..] == lines;
  }

  /** `TryParseLines` finds a line exactly when the buffer holds a '\n', and when it finds none it
      consumes nothing. */
  lemma TryParseLinesFindsNewline(buffer: seq<byte>, nl: LineBreak)
    ensures Message(SplitLines(buffer).0, nl) != [] <==> NewLineByte in buffer
    ensures NewLineByte !in buffer ==> SplitLines(buffer).1 == buffer
  {
    SplitLinesSeparates(buffer);
    MessageNonEmpty(SplitLines(buffer).0, nl);
  }

  // ---------------------------------------------------------------------------------------------
  // The CONNECT pattern `CONNECT (?<hostname>[\S]+):(?<port>\d+) HTTP/(?<version>\d{1}\.{1}\d{1})`

  /** The pattern matches the text starting at `start`, with the hostname ending at `colon` and the
      port ending at `space`, the space before "HTTP/". */
  predicate MatchesAt(m: string, start: nat, colon: nat, space: nat) {
    && start + 8 < colon < space && space + 9 <= |m|
    && m[start..start + 8] == "CONNECT "
    && (forall k :: start + 8 <= k < colon ==> !IsWhiteSpace(m[k]))
    && m[colon] == ':'
    && colon + 1 < space
    && (forall k :: colon + 1 <= k < space ==> IsDigit(m[k]))
    && m[space..space + 6] == " HTTP/"
    && IsDigit(m[space + 6]) && m[space + 7] == '.' && IsDigit(m[space + 8])
  }

  /** The first whitespace at or after `from`, or the end of the text. */
  function SpanEnd(m: string, from: nat): (d: nat)
    requires from <= |m|
    ensures from <= d <= |m|
    ensures forall k :: from <= k < d ==> !IsWhiteSpace(m[k])
    ensures d < |m| ==> IsWhiteSpace(m[d])
    decreases |m| - from
  {
    if from == |m| || IsWhiteSpace(m[from]) then from else SpanEnd(m, from + 1)
  }

  /** The last ':' before `limit`, no earlier than `from`. */
  function LastColon(m: string, from: nat, limit: nat): (c: Option<nat>)
    requires from <= limit <= |m|
    ensures c.Some? ==> from <= c.value < limit && m[c.value] == ':'
    ensures c.Some? ==> forall k :: c.value < k < limit ==> m[k] != ':'
    ensures c.None? ==> forall k :: from <= k < limit ==> m[k] != ':'
    decreases limit - from
  {
    if limit == from then None
    else if m[limit - 1] == ':' then Some(limit - 1)
    else LastColon(m, from, limit - 1)
  }

  predicate DigitsBetween(m: string, from: nat, limit: nat)
    requires from <= limit <= |m|
  {
    forall k :: from <= k < limit ==> IsDigit(m[k])
  }

  /** What the backtracking matcher finds at one start: the hostname runs to the last ':' of the
      non-whitespace run after "CONNECT ", and the port to the end of that run. */
  function MatchAt(m: string, start: nat): Option<(nat, nat)> {
    if |m| < start + 8 || m[start..start + 8] != "CONNECT " then None
    else
      var space := SpanEnd(m, start + 8);
      match LastColon(m, start + 8, space)
      case None => None
      case Some(colon) =>
        if start + 8 < colon && colon + 1 < space && DigitsBetween(m, colon + 1, space) &&
           space + 9 <= |m| && m[space..space + 6] == " HTTP/" &&
           IsDigit(m[space + 6]) && m[space + 7] == '.' && IsDigit(m[space + 8])
        then Some((colon, space))
        else None
  }

  /** At any start the pattern matches in at most one way, and that way is the one `MatchAt` finds,
      so the greedy `[\S]+` and `\d+` capture the same fields whatever order backtracking tries. */
  lemma MatchAtIsTheOnlyMatch(m: string, start: nat, colon: nat, space: nat)
    ensures MatchesAt(m, start, colon, space) <==> MatchAt(m, start) == Some((colon, space))
  {
    if MatchesAt(m, start, colon, space) {
      var d := SpanEnd(m, start + 8);
      assert IsWhiteSpace(m[space]) by { assert m[space] == (m[space..space + 6])[0]; }
      assert forall k :: colon < k < space ==> !IsWhiteSpace(m[k]);
      assert d == space;
      assert m[start..start + 8] == "CONNECT ";
    }
  }

  /** The leftmost match, as `Regex.Match` reports it. */
  datatype ConnectMatch = ConnectMatch(start: nat, colon: nat, space: nat)

  function FindConnect(m: string, from: nat): (r: Option<ConnectMatch>)
    ensures r.Some? ==> from <= r.value.start && MatchesAt(m, r.value.start, r.value.colon, r.value.space)
    ensures r.Some? ==> forall s, c, d :: from <= s < r.value.start ==> !MatchesAt(m, s, c, d)
    ensures r.None? ==> forall s, c, d :: from <= s ==> !MatchesAt(m, s, c, d)
    decreases |m| - from
  {
    if |m| < from + 8 then None
    else
      match MatchAt(m, from)
      case Some((colon, space)) =>
        MatchAtIsTheOnlyMatch(m, from, colon, space);
        Some(ConnectMatch(from, colon, space))
      case None =>
        assert forall c, d :: !MatchesAt(m, from, c, d) by {
          forall c, d ensures !MatchesAt(m, from, c, d) {
            MatchAtIsTheOnlyMatch(m, from, c, d);
          }
        }
        FindConnect(m, from + 1)
  }

  // ---------------------------------------------------------------------------------------------
  // The connection request

  datatype ConnectionRequest = ConnectionRequest(hostname: string, port: int, httpVersion: string)

  datatype ParseError =
    | NotConnect      // a complete message without the pattern
    | PortOverflow    // `int.Parse` of a port above `int.MaxValue`
    | ReadCanceled    // a read came back cancelled before a complete message
    | TokenCancelled  // the cancellation token was cancelled before a complete message

  /** The text the pattern matches, for given fields. */
  function RequestLine(hostname: string, portDigits: string, version: string): string {
    "CONNECT " + hostname + ":" + portDigits + " HTTP/" + version
  }

  predicate RequestLineAt(m: string, start: nat, hostname: string, portDigits: string, version: string) {
    var line := RequestLine(hostname, portDigits, version);
    start + |line| <= |m| && m[start..start + |line|] == line
  }

  /** Adjacent slices of a text join up. */
  lemma JoinSlices(m: string, i: nat, j: nat, k: nat)
    requires i <= j <= k <= |m|
    ensures m[i..k] == m[i..j] + m[j..k]
  {
  }

  /** A match spells out the request line of its captures. */
  lemma MatchSpellsRequestLine(m: string, start: nat, colon: nat, space: nat)
    requires MatchesAt(m, start, colon, space)
    ensures AllDigits(m[colon + 1..space])
    ensures RequestLineAt(m, start, m[start + 8..colon], m[colon + 1..space], m[space + 6..space + 9])
  {
    var hostname, digits, version := m[start + 8..colon], m[colon + 1..space], m[space + 6..space + 9];
    assert AllDigits(digits) by {
      forall i | 0 <= i < |digits| ensures IsDigit(digits[i]) {
        assert digits[i] == m[colon + 1 + i];
      }
    }
    assert m[colon..colon + 1] == ":";
    JoinSlices(m, start, start + 8, colon);
    JoinSlices(m, start, colon, colon + 1);
    JoinSlices(m, start, colon + 1, space);
    JoinSlices(m, start, space, space + 6);
    JoinSlices(m, start, space + 6, space + 9);
    assert m[start..space + 9] == RequestLine(hostname, digits, version);
  }

  /** The match on a complete message, and the fields extracted from it. A complete message is
      refused only for the pattern or the port, never as an unfinished read. */
  function Interpret(message: string): (r: Result<ConnectionRequest, ParseError>)
    ensures r.Err? ==> r.error == NotConnect || r.error == PortOverflow
    ensures r.Ok? ==> 0 <= r.value.port <= IntMax && |r.value.httpVersion| == 3
  {
    match FindConnect(message, 0)
    case None => Err(NotConnect)
    case Some(ConnectMatch(start, colon, space)) =>
      MatchSpellsRequestLine(message, start, colon, space);
      var digits := message[colon + 1..space];
      var port := DecimalValue(digits);
      if port > IntMax then Err(PortOverflow)
      else Ok(ConnectionRequest(message[start + 8..colon], port, message[space + 6..space + 9]))
  }

  /** A message is refused as not a CONNECT request exactly when the pattern matches nowhere in it. */
  lemma InterpretRefusesOnlyNonMatches(message: string)
    ensures Interpret(message) == Err(NotConnect) <==> forall s, c, d :: !MatchesAt(message, s, c, d)
  {
    var found := FindConnect(message, 0);
    if found.Some? {
      assert MatchesAt(message, found.value.start, found.value.colon, found.value.space);
    }
  }

  /** An accepted request holds a port no larger than `int.MaxValue` and a three-character version,
      read from a request line that occurs in the message. */
  lemma InterpretReadsRequestLine(message: string)
    ensures var r := Interpret(message);
      r.Ok? ==>
        0 <= r.value.port <= IntMax && |r.value.httpVersion| == 3 &&
        exists s, digits :: AllDigits(digits) && DecimalValue(digits) == r.value.port &&
          RequestLineAt(message, s, r.value.hostname, digits, r.value.httpVersion)
  {
    var found := FindConnect(message, 0);
    if found.Some? {
      var start, colon, space := found.value.start, found.value.colon, found.value.space;
      MatchSpellsRequestLine(message, start, colon, space);
      CapturesReadRequestLine(message, start, colon, space, Interpret(message));
    }
  }

  /** The captures of one match, read as `Interpret` reads them. */
  lemma CapturesReadRequestLine(message: string, start: nat, colon: nat, space: nat, r: Result<ConnectionRequest, ParseError>)
    requires start + 8 < colon < space && space + 9 <= |message|
    requires AllDigits(message[colon + 1..space])
    requires RequestLineAt(message, start, message[start + 8..colon], message[colon + 1..space], message[space + 6..space + 9])
    requires var port := DecimalValue(message[colon + 1..space]);
      r == if port > IntMax then Err(PortOverflow)
        else Ok(ConnectionRequest(message[start + 8..colon], port, message[space + 6..space + 9]))
    ensures r.Ok? ==>
      0 <= r.value.port <= IntMax && |r.value.httpVersion| == 3 &&
      exists s, digits :: AllDigits(digits) && DecimalValue(digits) == r.value.port &&
        RequestLineAt(message, s, r.value.hostname, digits, r.value.httpVersion)
  {
    if r.Ok? {
      var digits := message[colon + 1..space];
      assert AllDigits(digits) && DecimalValue(digits) == r.value.port &&
        RequestLineAt(message, start, r.value.hostname, digits, r.value.httpVersion);
    }
  }

  /** A piece of a text, found from the text before it. */
  lemma PieceAt(m: string, before: string, piece: string)
    requires |before| + |piece| <= |m| && m[..|before| + |piece|] == before + piece
    ensures m[..|before|] == before && m[|before|..|before| + |piece|] == piece
  {
    assert m[..|before|] == m[..|before| + |piece|][..|before|];
    assert m[|before|..|before| + |piece|] == m[..|before| + |piece|][|before|..];
  }

  /** Where each field of a request line sits in a text that starts with it. */
  lemma RequestLineFields(m: string, hostname: string, digits: string, version: string, tail: string)
    requires m == RequestLine(hostname, digits, version) + tail
    ensures var colon, space := 8 + |hostname|, 9 + |hostname| + |digits|;
      space + 6 + |version| <= |m| &&
      m[..8] == "CONNECT " && m[8..colon] == hostname && m[colon..colon + 1] == ":" &&
      m[colon + 1..space] == digits && m[space..space + 6] == " HTTP/" &&
      m[space + 6..space + 6 + |version|] == version
  {
    var a1 := "CONNECT " + hostname;
    var a2 := a1 + ":";
    var a3 := a2 + digits;
    var a4 := a3 + " HTTP/";
    var a5 := a4 + version;
    assert m == a5 + tail;
    assert m[..|a5|] == a5;
    PieceAt(m, a4, version);
    PieceAt(m, a3, " HTTP/");
    PieceAt(m, a2, digits);
    PieceAt(m, a1, ":");
    PieceAt(m, "CONNECT ", hostname);
  }

  /** The pattern matches a well-formed request line at its start. */
  lemma RequestLineMatches(m: string, hostname: string, port: nat, version: string, tail: string)
    requires m == RequestLine(hostname, ShowNat(port), version) + tail
    requires |hostname| > 0 && forall i :: 0 <= i < |hostname| ==> !IsWhiteSpace(hostname[i])
    requires |version| == 3 && IsDigit(version[0]) && version[1] == '.' && IsDigit(version[2])
    ensures MatchesAt(m, 0, 8 + |hostname|, 9 + |hostname| + |ShowNat(port)|)
  {
    var digits := ShowNat(port);
    var colon, space := 8 + |hostname|, 9 + |hostname| + |digits|;
    RequestLineFields(m, hostname, digits, version, tail);
    assert m[0..8] == m[..8];
    assert m[colon] == m[colon..colon + 1][0];
    assert forall k :: 8 <= k < colon ==> m[k] == m[8..colon][k - 8];
    assert forall k :: colon + 1 <= k < space ==> m[k] == m[colon + 1..space][k - colon - 1];
    assert m[space + 6] == version[0] && m[space + 7] == version[1] && m[space + 8] == version[2];
  }

  /** A well-formed request line, whatever follows it, is found at its start and gives back its own
      fields: a hostname without whitespace, the port as its decimal digits, and a version `d.d`. */
  lemma InterpretRequestLine(hostname: string, port: nat, version: string, tail: string)
    requires |hostname| > 0 && forall i :: 0 <= i < |hostname| ==> !IsWhiteSpace(hostname[i])
    requires port <= IntMax
    requires |version| == 3 && IsDigit(version[0]) && version[1] == '.' && IsDigit(version[2])
    ensures Interpret(RequestLine(hostname, ShowNat(port), version) + tail) ==
      Ok(ConnectionRequest(hostname, port, version))
  {
    var digits := ShowNat(port);
    var m := RequestLine(hostname, digits, version) + tail;
    var colon, space := 8 + |hostname|, 9 + |hostname| + |digits|;
    RequestLineFields(m, hostname, digits, version, tail);
    RequestLineMatches(m, hostname, port, version, tail);
    InterpretMatchAtStart(m, colon, space);
    DecimalValueOfShowNat(port);
  }

  /** A text the pattern matches at its very start is read from that match. */
  lemma InterpretMatchAtStart(m: string, colon: nat, space: nat)
    requires MatchesAt(m, 0, colon, space)
    ensures var port := DecimalValue(m[colon + 1..space]);
      Interpret(m) == if port > IntMax then Err(PortOverflow)
        else Ok(ConnectionRequest(m[8..colon], port, m[space + 6..space + 9]))
  {
    FindConnectAtStart(m, colon, space);
  }

  /** A match at the very start is the leftmost one. */
  lemma FindConnectAtStart(m: string, colon: nat, space: nat)
    requires MatchesAt(m, 0, colon, space)
    ensures FindConnect(m, 0) == Some(ConnectMatch(0, colon, space))
  {
    MatchAtIsTheOnlyMatch(m, 0, colon, space);
  }

  /** The characters of a request line are ASCII when its hostname is. */
  lemma RequestLineIsAscii(hostname: string, port: nat, version: string)
    requires IsAscii(hostname) && IsAscii(version)
    ensures IsAscii(RequestLine(hostname, ShowNat(port), version))
  {
    var digits := ShowNat(port);
    assert IsAscii(digits) by {
      forall i | 0 <= i < |digits| ensures IsAsciiChar(digits[i]) {
        assert IsDigit(digits[i]);
      }
    }
  }

  /** No character of a request line is a line break when its hostname has no whitespace. */
  lemma RequestLineHasNoNewline(hostname: string, port: nat, version: string)
    requires forall i :: 0 <= i < |hostname| ==> !IsWhiteSpace(hostname[i])
    requires |version| == 3 && IsDigit(version[0]) && version[1] == '.' && IsDigit(version[2])
    ensures NewLineByte !in EncodeAscii(RequestLine(hostname, ShowNat(port), version))
  {
    var digits := ShowNat(port);
    var line := RequestLine(hostname, digits, version);
    assert line == "CONNECT " + hostname + (":" + digits + " HTTP/" + version);
    forall i | 0 <= i < |line| ensures line[i] != '\n' {
      if 8 <= i < 8 + |hostname| {
        assert line[i] == hostname[i - 8];
      } else if 8 + |hostname| + 1 <= i < 8 + |hostname| + 1 + |digits| {
        assert line[i] == digits[i - 8 - |hostname| - 1];
      }
    }
    forall i | 0 <= i < |line| ensures EncodeAscii(line)[i] != NewLineByte {
      assert EncodeAscii(line)[i] == EncodeChar(line[i]);
    }
  }

  /** One result of `reader.ReadAsync`: the bytes that arrived, or a cancelled read. */
  datatype ReadResult = Data(bytes: seq<byte>) | Canceled

  /** `ParseConnectionRequest`: the unconsumed bytes of one read come back in front of the next one,
      until a read holds a complete line. Running out of read results stands for the cancellation
      token being cancelled. Either that or a cancelled read leaves the port unset, which throws. */
  function ParseFrom(pending: seq<byte>, results: seq<ReadResult>, nl: LineBreak): Result<ConnectionRequest, ParseError>
    decreases |results|
  {
    if results == [] then Err(TokenCancelled)
    else if results[0].Canceled? then Err(ReadCanceled)
    else
      var buffer := pending + results[0].bytes;
      var split := SplitLines(buffer);
      if split.0 == [] then ParseFrom(split.1, results[1..], nl)
      else Interpret(Message(split.0, nl))
  }

  /** The first read that completes a line decides the request: the reads after it are never
      looked at, and a request line split over two reads is lost if an earlier line completes first. */
  lemma FirstCompleteReadDecides(bytes: seq<byte>, later: seq<ReadResult>, nl: LineBreak)
    requires NewLineByte in bytes
    ensures ParseFrom([], [Data(bytes)] + later, nl) == Interpret(Message(SplitLines(bytes).0, nl))
  {
    var results := [Data(bytes)] + later;
    assert results[0] == Data(bytes) && [] + bytes == bytes;
    SplitLinesSeparates(bytes);
  }

  /** The bytes that the reads deliver, in order. */
  function Received(results: seq<ReadResult>): seq<byte> {
    if results == [] then []
    else (if results[0].Data? then results[0].bytes else []) + Received(results[1..])
  }

  /** No read came back cancelled. */
  predicate AllData(results: seq<ReadResult>) {
    forall i :: 0 <= i < |results| ==> results[i].Data?
  }

  lemma AllDataStep(results: seq<ReadResult>)
    requires results != []
    ensures AllData(results) <==> results[0].Data? && AllData(results[1..])
  {
    if results[0].Data? && AllData(results[1..]) {
      forall i | 0 <= i < |results| ensures results[i].Data? {
        if i > 0 { assert results[i] == results[1..][i - 1]; }
      }
    }
  }

  /** The first read's bytes join what was pending; a '\n' among them is among all the bytes. */
  lemma ReceivedStep(pending: seq<byte>, results: seq<ReadResult>)
    requires results != [] && results[0].Data?
    ensures pending + Received(results) == (pending + results[0].bytes) + Received(results[1..])
    ensures NewLineByte in pending + results[0].bytes ==> NewLineByte in pending + Received(results)
  {
    var buffer := pending + results[0].bytes;
    var all := buffer + Received(results[1..]);
    assert pending + Received(results) == all;
    assert buffer == all[..|buffer|];
  }

  /** With no '\n' left over from earlier reads, parsing ends as cancelled by the token exactly when
      no read comes back cancelled and no '\n' ever arrives: the loop keeps reading until then. */
  lemma {:induction false} TokenCancelledExactlyWithoutLine(pending: seq<byte>, results: seq<ReadResult>, nl: LineBreak)
    requires NewLineByte !in pending
    ensures ParseFrom(pending, results, nl) == Err(TokenCancelled) <==>
      AllData(results) && NewLineByte !in pending + Received(results)
    decreases |results|
  {
    if results != [] {
      AllDataStep(results);
      if results[0].Data? {
        var buffer := pending + results[0].bytes;
        ReceivedStep(pending, results);
        if NewLineByte in buffer {
          SplitLinesSeparates(buffer);
        } else {
          SplitLinesAtEnd(buffer);
          TokenCancelledExactlyWithoutLine(buffer, results[1..], nl);
        }
      }
    }
  }

  /** One ASCII line and its '\n' give that line and a line break as the message. */
  lemma OneLineMessage(line: string, nl: LineBreak)
    requires IsAscii(line) && NewLineByte !in EncodeAscii(line)
    ensures NewLineByte in EncodeAscii(line) + [NewLineByte]
    ensures Message(SplitLines(EncodeAscii(line) + [NewLineByte]).0, nl) == line + nl.Chars()
  {
    var bytes := EncodeAscii(line) + [NewLineByte];
    assert bytes[..|line|] == EncodeAscii(line) && bytes[|line|] == NewLineByte;
    assert IndexOf(bytes, NewLineByte) == Some(|line|);
    SplitLinesStep(bytes, |line|);
    assert bytes[|line| + 1..] == [];
    assert [EncodeAscii(line)] + [] == [EncodeAscii(line)];
    MessageCons(EncodeAscii(line), [], nl);
    DecodeOfEncode(line);
  }

  /** A CONNECT request sent as one ASCII line in one read parses back to its own fields. */
  lemma ConnectRequestRoundTrip(hostname: string, port: nat, version: string, later: seq<ReadResult>, nl: LineBreak)
    requires |hostname| > 0 && IsAscii(hostname) && forall i :: 0 <= i < |hostname| ==> !IsWhiteSpace(hostname[i])
    requires port <= IntMax
    requires |version| == 3 && IsDigit(version[0]) && version[1] == '.' && IsDigit(version[2])
    ensures ParseFrom([], [Data(EncodeAscii(RequestLine(hostname, ShowNat(port), version)) + [NewLineByte])] + later, nl)
      == Ok(ConnectionRequest(hostname, port, version))
  {
    var line := RequestLine(hostname, ShowNat(port), version);
    RequestLineHasNoNewline(hostname, port, version);
    assert IsAscii(version) by {
      assert IsAsciiChar(version[0]) && IsAsciiChar(version[1]) && IsAsciiChar(version[2]);
    }
    RequestLineIsAscii(hostname, port, version);
    OneLineMessage(line, nl);
    FirstCompleteReadDecides(EncodeAscii(line) + [NewLineByte], later, nl);
    InterpretRequestLine(hostname, port, version, nl.Chars());
  }

  method ParseConnectionRequest(results: seq<ReadResult>, nl: LineBreak) returns (r: Result<ConnectionRequest, ParseError>)
    ensures r == ParseFrom([], results, nl)
  {
    var request: Option<ConnectionRequest> := None;
    var pending: seq<byte> := [];
    var i := 0;
    while request.None? && i < |results|
      invariant 0 <= i <= |results|
      invariant request.None? ==> ParseFrom([], results, nl) == ParseFrom(pending, results[i..], nl)
      invariant request.Some? ==> ParseFrom([], results, nl) == Ok(request.value)
      decreases |results| - i
    {
      if results[i].Canceled? {
        return Err(ReadCanceled);
      }
      var buffer := pending + results[i].bytes;
      var found, message, rest := TryParseLines(buffer, nl);
      if found {
        var interpreted := Interpret(message);
        if interpreted.Err? {
          return interpreted;
        }
        request := Some(interpreted.value);
      }
      pending := rest;
      i := i + 1;
    }
    if request.None? {
      return Err(TokenCancelled);
    }
    return Ok(request.value);
  }

  // ---------------------------------------------------------------------------------------------
  // The reply

  datatype StatusLine = StatusLine(httpVersion: string, code: nat, reason: string)

  /** `SendConnectResponse`: `HTTP/{version} {code} {message}` and an empty line, ASCII-encoded.
      Every character of the status text is one byte, and ASCII parts are sent unchanged. */
  function ConnectResponse(status: StatusLine): (reply: seq<byte>)
    ensures |reply| == |StatusText(status)|
    ensures IsAscii(status.httpVersion) && IsAscii(status.reason) ==> DecodeAscii(reply) == StatusText(status)
  {
    var text := StatusText(status);
    if IsAscii(status.httpVersion) && IsAscii(status.reason) then
      StatusTextIsAscii(status);
      DecodeOfEncode(text);
      EncodeAscii(text)
    else EncodeAscii(text)
  }

  /** The text up to the first space. */
  function UntilSpace(s: string): (r: string)
    ensures |r| <= |s| && r == s[..|r|] && ' ' !in r
    ensures |r| < |s| ==> s[|r|] == ' '
  {
    if s == [] || s[0] == ' ' then [] else [s[0]] + UntilSpace(s[1..])
  }

  /** How a client reads a status line back. */
  function ReadStatusLine(reply: seq<byte>): Option<StatusLine> {
    ReadStatusText(DecodeAscii(reply))
  }

  function ReadStatusText(t: string): Option<StatusLine> {
    if |t| < 9 || t[..5] != "HTTP/" || t[|t| - 4..] != "\r\n\r\n" then None
    else
      var line := t[5..|t| - 4];
      var version := UntilSpace(line);
      if |version| == |line| then None
      else
        var after := line[|version| + 1..];
        var digits := DigitRun(after);
        if digits == [] || |digits| == |after| || after[|digits|] != ' ' then None
        else Some(StatusLine(version, DecimalValue(digits), after[|digits| + 1..]))
  }

  lemma {:induction false} UntilSpaceOf(word: string, rest: string)
    requires ' ' !in word
    ensures UntilSpace(word + " " + rest) == word
  {
    if word != [] {
      assert (word + " " + rest)[1..] == word[1..] + " " + rest;
      UntilSpaceOf(word[1..], rest);
    }
  }

  function StatusText(status: StatusLine): string {
    "HTTP/" + status.httpVersion + " " + ShowNat(status.code) + " " + status.reason + "\r\n\r\n"
  }

  /** The status text, regrouped around the line between "HTTP/" and the final line breaks. */
  lemma StatusTextShape(version: string, code: string, reason: string)
    ensures "HTTP/" + version + " " + code + " " + reason + "\r\n\r\n" ==
      "HTTP/" + (version + " " + (code + " " + reason)) + "\r\n\r\n"
  {
    var tail := code + " " + reason;
    assert version + " " + code + " " + reason == version + " " + tail;
    assert "HTTP/" + version + " " + code + " " + reason == "HTTP/" + (version + " " + tail);
  }

  /** What follows the version: the code, read as digits up to the space, and the reason. */
  lemma CodeAndReasonReadBack(code: nat, reason: string)
    ensures var after := ShowNat(code) + " " + reason;
      var digits := DigitRun(after);
      digits != [] && |digits| < |after| && after[|digits|] == ' ' &&
      DecimalValue(digits) == code && after[|digits| + 1..] == reason
  {
    var digits := ShowNat(code);
    Parts(digits + " " + reason, digits, " ", reason);
    assert digits + " " + reason == digits + (" " + reason);
    DigitRunOfDigits(digits, " " + reason);
    DecimalValueOfShowNat(code);
  }

  lemma StatusTextReadsBack(status: StatusLine)
    requires ' ' !in status.httpVersion
    ensures ReadStatusText(StatusText(status)) == Some(status)
  {
    var version, code, reason := status.httpVersion, ShowNat(status.code), status.reason;
    var tail := code + " " + reason;
    var line := version + " " + tail;
    var text := StatusText(status);
    StatusTextShape(version, code, reason);
    Parts(text, "HTTP/", line, "\r\n\r\n");
    UntilSpaceOf(version, tail);
    Parts(line, version, " ", tail);
    CodeAndReasonReadBack(status.code, reason);
  }

  lemma StatusTextIsAscii(status: StatusLine)
    requires IsAscii(status.httpVersion) && IsAscii(status.reason)
    ensures IsAscii(StatusText(status))
  {
    var code := ShowNat(status.code);
    assert IsAscii(code) by {
      forall i | 0 <= i < |code| ensures IsAsciiChar(code[i]) {
        assert IsDigit(code[i]);
      }
    }
  }

  /** A client reads back the status line the proxy sent, when the version has no space and every
      part is ASCII. */
  lemma StatusLineRoundTrip(status: StatusLine)
    requires IsAscii(status.httpVersion) && ' ' !in status.httpVersion && IsAscii(status.reason)
    ensures ReadStatusLine(ConnectResponse(status)) == Some(status)
  {
    StatusTextReadsBack(status);
  }

  /** How `HandleProxyRequest` ended: cancelled before it began, aborted because the token was
      cancelled while the request was read, or the status line it sent. */
  datatype ProxyOutcome = NotStarted | Aborted | Replied(status: StatusLine)

  /** The status `HandleProxyRequest` answers with: 400 with version 1.0 when parsing failed, 502
      with the client's version when connecting failed, 200 with the client's version otherwise. */
  function ReplyFor(parsed: Result<ConnectionRequest, ParseError>, connectFails: bool): (s: StatusLine)
    ensures s.code == 400 <==> parsed.Err?
    ensures s.code == 502 <==> parsed.Ok? && connectFails
    ensures s.code == 200 <==> parsed.Ok? && !connectFails
    ensures s.httpVersion == if parsed.Err? then "1.0" else parsed.value.httpVersion
  {
    if parsed.Err? then StatusLine("1.0", 400, "Bad request")
    else if connectFails then StatusLine(parsed.value.httpVersion, 502, "Bad gateway")
    else StatusLine(parsed.value.httpVersion, 200, "Connection established")
  }

  /** `HandleProxyRequest`. `connectFails` is whether connecting to the destination throws; the 200
      reply is sent only once the connection is made. When the token was cancelled during parsing,
      the 400 reply is written with that same token, the write is refused, and the exception leaves
      the handler with nothing sent. */
  method HandleProxyRequest(cancelled: bool, results: seq<ReadResult>, connectFails: bool, nl: LineBreak)
    returns (outcome: ProxyOutcome, reply: seq<byte>)
    ensures cancelled ==> outcome == NotStarted && reply == []
    ensures !cancelled && ParseFrom([], results, nl) == Err(TokenCancelled) ==> outcome == Aborted && reply == []
    ensures !cancelled && ParseFrom([], results, nl) != Err(TokenCancelled) ==>
      outcome == Replied(ReplyFor(ParseFrom([], results, nl), connectFails)) &&
      reply == ConnectResponse(outcome.status)
  {
    if cancelled {
      return NotStarted, [];
    }
    var parsed := ParseConnectionRequest(results, nl);
    if parsed == Err(TokenCancelled) {
      return Aborted, [];
    }
    var status;
    if parsed.Err? {
      status := StatusLine("1.0", 400, "Bad request");
    } else if connectFails {
      status := StatusLine(parsed.value.httpVersion, 502, "Bad gateway");
    } else {
      status := StatusLine(parsed.value.httpVersion, 200, "Connection established");
    }
    return Replied(status), ConnectResponse(status);
  }

  /** Every reply the proxy sends reads back as the status it chose. */
  lemma RepliesReadBack(parsed: Result<ConnectionRequest, ParseError>, connectFails: bool)
    requires parsed.Ok? ==> IsAscii(parsed.value.httpVersion) && ' ' !in parsed.value.httpVersion
    ensures ReadStatusLine(ConnectResponse(ReplyFor(parsed, connectFails))) == Some(ReplyFor(parsed, connectFails))
  {
    StatusLineRoundTrip(ReplyFor(parsed, connectFails));
  }
}
