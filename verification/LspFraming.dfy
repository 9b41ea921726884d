/**
 The wire framing of the language-server client (`internal/lsp/client.go`): what
 `writeFrame` prints and what `readLoop` cuts out of a byte stream. A byte is a
 `char`; a stream is everything the server writes before its pipe ends.
 */
module LspFraming {
  import opened Wrappers

  const MAX_INT: int := 0x7FFF_FFFF_FFFF_FFFF

  // ----- the printer

  function Digit(d: nat): char
    requires d < 10
  {
    '0' + d as char
  }

  /** Decimal digits, as `%d` prints a length. */
  function Decimal(n: nat): (s: string)
    ensures s != ""
  {
    if n < 10 then [Digit(n)] else Decimal(n / 10) + [Digit(n % 10)]
  }

  function WriteFrame(body: string): string {
    "Content-Length: " + Decimal(|body|) + "\r\n\r\n" + body
  }

  function WriteAll(bodies: seq<string>): string {
    if bodies == [] then "" else WriteFrame(bodies[0]) + WriteAll(bodies[1..])
  }

  // ----- the library functions the parser calls

  /** `strings.IndexByte`. */
  function IndexByte(s: string, c: char): (r: int)
    ensures -1 <= r < |s|
    ensures r == -1 <==> c !in s
    ensures r >= 0 ==> s[r] == c && c !in s[..r]
  {
    if s == "" then -1
    else if s[0] == c then 0
    else
      var r := IndexByte(s[1..], c);
      assert s == [s[0]] + s[1..];
      if r == -1 then -1
      else
        assert s[..r + 1] == [s[0]] + s[1..][..r];
        r + 1
  }

  /** `strings.TrimRight` with the cut set of the predicate. */
  function TrimRight(s: string, cut: char -> bool): string {
    if s != "" && cut(s[|s| - 1]) then TrimRight(s[..|s| - 1], cut) else s
  }

  function TrimLeft(s: string, cut: char -> bool): string {
    if s != "" && cut(s[0]) then TrimLeft(s[1..], cut) else s
  }

  predicate IsSpace(c: char) {
    c == ' ' || ('\t' <= c <= '\r')
  }

  predicate IsLineEnd(c: char) {
    c == '\r' || c == '\n'
  }

  function TrimSpace(s: string): string {
    TrimRight(TrimLeft(s, IsSpace), IsSpace)
  }

  function LowerChar(c: char): char {
    if 'A' <= c <= 'Z' then c + ('a' - 'A') else c
  }

  function ToLower(s: string): (r: string)
    ensures |r| == |s|
    ensures forall i :: 0 <= i < |s| ==> r[i] == LowerChar(s[i])
  {
    seq(|s|, i requires 0 <= i < |s| => LowerChar(s[i]))
  }

  predicate AllDigits(s: string) {
    forall i :: 0 <= i < |s| ==> '0' <= s[i] <= '9'
  }

  function DigitsValue(s: string): nat
    requires AllDigits(s)
  {
    if s == "" then 0 else DigitsValue(s[..|s| - 1]) * 10 + (s[|s| - 1] - '0') as nat
  }

  /** `strconv.Atoi`: an optional sign, at least one digit, a 64-bit result. */
  function Atoi(s: string): Option<int> {
    var signed := s != "" && (s[0] == '-' || s[0] == '+');
    var digits := if signed then s[1..] else s;
    if digits == "" || !AllDigits(digits) then None
    else
      var v: int := if signed && s[0] == '-' then 0 - DigitsValue(digits) else DigitsValue(digits);
      if -MAX_INT - 1 <= v <= MAX_INT then Some(v) else None
  }

  // ----- the parser, as a function

  /** What one header line does to the content length; `None` makes the reader stop. */
  function HeaderLine(line: string, contentLen: int): Option<int> {
    var colon := IndexByte(line, ':');
    if colon < 0 then Some(contentLen)
    else if ToLower(TrimSpace(line[..colon])) == "content-length" then Atoi(TrimSpace(line[colon + 1..]))
    else Some(contentLen)
  }

  datatype Headers = Headers(contentLen: int, rest: string)

  /** Header lines up to the blank one; `None` when the stream ends or a length is malformed. */
  function ReadHeaders(input: string, contentLen: int): (r: Option<Headers>)
    ensures r.Some? ==> |r.value.rest| < |input|
    decreases |input|
  {
    var eol := IndexByte(input, '\n');
    if eol < 0 then None
    else
      var line := TrimRight(input[..eol + 1], IsLineEnd);
      var rest := input[eol + 1..];
      if line == "" then Some(Headers(contentLen, rest))
      else
        match HeaderLine(line, contentLen)
        case None => None
        case Some(n) => ReadHeaders(rest, n)
  }

  /** The bodies `readLoop` cuts out of a stream, in order. */
  function Bodies(input: string): seq<string>
    decreases |input|
  {
    match ReadHeaders(input, 0)
    case None => []
    case Some(h) =>
      if h.contentLen <= 0 || h.contentLen > |h.rest| then []
      else [h.rest[..h.contentLen]] + Bodies(h.rest[h.contentLen..])
  }

  // ----- the parser, as the code runs it

  /** One line of the header block at `pos`. */
  lemma HeaderStep(input: string, pos: nat, contentLen: int)
    requires pos <= |input|
    ensures
      var eol := IndexByte(input[pos..], '\n');
      && (eol < 0 ==> ReadHeaders(input[pos..], contentLen) == None)
      && (eol >= 0 ==>
            var line := TrimRight(input[pos..][..eol + 1], IsLineEnd);
            var next := pos + eol + 1;
            && next <= |input|
            && (line == "" ==> ReadHeaders(input[pos..], contentLen) == Some(Headers(contentLen, input[next..])))
            && (line != "" ==>
                  match HeaderLine(line, contentLen)
                  case None => ReadHeaders(input[pos..], contentLen) == None
                  case Some(n) => ReadHeaders(input[pos..], contentLen) == ReadHeaders(input[next..], n)))
  {
    hide HeaderLine, TrimRight;
    var eol := IndexByte(input[pos..], '\n');
    if eol >= 0 { assert input[pos..][eol + 1..] == input[pos + eol + 1..]; }
  }

  method ReadHeaderLines(input: string, start: nat) returns (ok: bool, contentLen: int, pos: nat)
    requires start <= |input|
    ensures start <= pos <= |input|
    ensures ReadHeaders(input[start..], 0) == if ok then Some(Headers(contentLen, input[pos..])) else None
    ensures ok ==> pos > start
  {
    hide ReadHeaders, HeaderLine, TrimRight, IsLineEnd;
    contentLen, pos := 0, start;
    while true
      invariant start <= pos <= |input|
      invariant ReadHeaders(input[start..], 0) == ReadHeaders(input[pos..], contentLen)
      decreases |input| - pos
    {
      HeaderStep(input, pos, contentLen);
      var eol := IndexByte(input[pos..], '\n');
      if eol < 0 {
        return false, contentLen, pos;
      }
      var line := TrimRight(input[pos..][..eol + 1], IsLineEnd);
      pos := pos + eol + 1;
      if line == "" {
        return true, contentLen, pos;
      }
      match HeaderLine(line, contentLen)
      case None => return false, contentLen, pos;
      case Some(n) => contentLen := n;
    }
  }

  lemma BodyRead(input: string, pos: nat, contentLen: nat, bodyAt: nat)
    requires pos <= bodyAt && 0 < contentLen && bodyAt + contentLen <= |input|
    requires ReadHeaders(input[pos..], 0) == Some(Headers(contentLen, input[bodyAt..]))
    ensures Bodies(input[pos..]) == [input[bodyAt..][..contentLen]] + Bodies(input[bodyAt + contentLen..])
  {
    assert input[bodyAt..][contentLen..] == input[bodyAt + contentLen..];
  }

  method ReadLoop(input: string) returns (bodies: seq<string>)
    ensures bodies == Bodies(input)
  {
    hide ReadHeaders;
    bodies := [];
    var pos := 0;
    assert input[0..] == input;
    while true
      invariant pos <= |input|
      invariant bodies + Bodies(input[pos..]) == Bodies(input)
      decreases |input| - pos
    {
      var ok, contentLen, bodyAt := ReadHeaderLines(input, pos);
      if !ok || contentLen <= 0 || bodyAt + contentLen > |input| {
        assert Bodies(input[pos..]) == [];
        return;
      }
      BodyRead(input, pos, contentLen, bodyAt);
      var body := input[bodyAt..][..contentLen];
      bodies := bodies + [body];
      pos := bodyAt + contentLen;
    }
  }

  // ----- the round trip

  lemma {:induction false} DecimalRoundTrip(n: nat)
    ensures AllDigits(Decimal(n)) && DigitsValue(Decimal(n)) == n
  {
    if n >= 10 {
      DecimalRoundTrip(n / 10);
      var s := Decimal(n);
      assert s[..|s| - 1] == Decimal(n / 10);
    } else {
      assert Decimal(n)[..0] == "";
    }
  }

  lemma AtoiDecimal(n: nat)
    requires n <= MAX_INT
    ensures Atoi(Decimal(n)) == Some(n)
  {
    DecimalRoundTrip(n);
  }

  lemma {:induction false} IndexByteAfter(prefix: string, c: char, rest: string)
    requires c !in prefix
    ensures IndexByte(prefix + [c] + rest, c) == |prefix|
  {
    var s := prefix + [c] + rest;
    if prefix != "" {
      assert s[1..] == prefix[1..] + [c] + rest;
      IndexByteAfter(prefix[1..], c, rest);
    }
  }

  /** The one header line `writeFrame` prints, without its line end. */
  function LengthLine(n: nat): string {
    "Content-Length: " + Decimal(n)
  }

  lemma HeaderName()
    ensures ToLower(TrimSpace("Content-Length")) == "content-length"
  {
    assert TrimLeft("Content-Length", IsSpace) == "Content-Length";
    assert TrimRight("Content-Length", IsSpace) == "Content-Length";
  }

  lemma HeaderValue(d: string)
    requires d != "" && AllDigits(d)
    ensures TrimSpace(" " + d) == d
  {
    assert (" " + d)[1..] == d;
    assert !IsSpace(d[0]) && !IsSpace(d[|d| - 1]);
    assert TrimLeft(d, IsSpace) == d;
    assert TrimLeft(" " + d, IsSpace) == d;
    assert TrimRight(d, IsSpace) == d;
  }

  lemma LengthLineIsRead(n: nat)
    requires n <= MAX_INT
    ensures HeaderLine(LengthLine(n), 0) == Some(n)
    ensures '\n' !in LengthLine(n) && '\r' !in LengthLine(n)
  {
    hide ToLower, TrimSpace, Atoi, Decimal, TrimRight, TrimLeft;
    var line := LengthLine(n);
    var d := Decimal(n);
    DecimalRoundTrip(n);
    assert line == "Content-Length" + [':'] + (" " + d);
    assert ':' !in "Content-Length";
    IndexByteAfter("Content-Length", ':', " " + d);
    assert line[..14] == "Content-Length";
    assert line[15..] == " " + d;
    HeaderName();
    HeaderValue(d);
    AtoiDecimal(n);
  }

  /** The first line of a printed frame leaves its length and the blank line to read. */
  lemma FirstHeader(n: nat, rest: string)
    requires n <= MAX_INT
    ensures ReadHeaders(LengthLine(n) + "\r\n\r\n" + rest, 0) == ReadHeaders("\r\n" + rest, n)
  {
    hide ReadHeaders, HeaderLine, LengthLine, TrimRight;
    var line := LengthLine(n);
    LengthLineIsRead(n);
    var input := line + "\r\n\r\n" + rest;
    assert input == (line + "\r") + ['\n'] + ("\r\n" + rest);
    IndexByteAfter(line + "\r", '\n', "\r\n" + rest);
    assert input[..|line| + 2] == line + "\r\n";
    TrimLineEnd(line);
    LengthLineIsNotBlank(n);
    assert input[|line| + 2..] == "\r\n" + rest;
    assert input[0..] == input;
    HeaderStep(input, 0, 0);
  }

  lemma BlankHeader(n: int, rest: string)
    ensures ReadHeaders("\r\n" + rest, n) == Some(Headers(n, rest))
  {
    hide ReadHeaders, HeaderLine, TrimRight;
    var input := "\r\n" + rest;
    assert input == "\r" + ['\n'] + rest;
    IndexByteAfter("\r", '\n', rest);
    assert input[..2] == "" + "\r\n" && input[2..] == rest;
    TrimLineEnd("");
    assert input[0..] == input;
    HeaderStep(input, 0, n);
  }

  /** Reading the headers of a printed frame consumes exactly them and finds the length. */
  lemma HeadersOfFrame(n: nat, rest: string)
    requires n <= MAX_INT
    ensures ReadHeaders(LengthLine(n) + "\r\n\r\n" + rest, 0) == Some(Headers(n, rest))
  {
    FirstHeader(n, rest);
    BlankHeader(n, rest);
  }

  lemma TrimLineEnd(line: string)
    requires '\n' !in line && '\r' !in line
    ensures TrimRight(line + "\r\n", IsLineEnd) == line
  {
    var s := line + "\r\n";
    assert s[..|s| - 1] == line + "\r";
    assert (line + "\r")[..|line|] == line;
    assert line != "" ==> line[|line| - 1] in line;
    assert TrimRight(line, IsLineEnd) == line;
    assert TrimRight(line + "\r", IsLineEnd) == line;
  }

  lemma BodyOfFrame(body: string, rest: string)
    requires 0 < |body| <= MAX_INT
    ensures Bodies(WriteFrame(body) + rest) == [body] + Bodies(rest)
  {
    assert WriteFrame(body) + rest == LengthLine(|body|) + "\r\n\r\n" + (body + rest);
    HeadersOfFrame(|body|, body + rest);
    assert (body + rest)[..|body|] == body && (body + rest)[|body|..] == rest;
  }

  ghost predicate Sendable(bodies: seq<string>) {
    forall i :: 0 <= i < |bodies| ==> 0 < |bodies[i]| <= MAX_INT
  }

  /** Printed frames read back as the bodies they were printed from, whatever follows them. */
  lemma {:induction false} RoundTrip(bodies: seq<string>, rest: string)
    requires Sendable(bodies)
    ensures Bodies(WriteAll(bodies) + rest) == bodies + Bodies(rest)
  {
    hide Bodies, WriteFrame;
    if bodies == [] {
      assert WriteAll(bodies) + rest == rest;
    } else {
      RoundTrip(bodies[1..], rest);
      assert WriteAll(bodies) + rest == WriteFrame(bodies[0]) + (WriteAll(bodies[1..]) + rest);
      BodyOfFrame(bodies[0], WriteAll(bodies[1..]) + rest);
    }
  }

  lemma CutInFirstLine(line: string, cut: string)
    requires cut <= line + "\r" && '\n' !in line
    ensures Bodies(cut) == []
  {
    assert forall i :: 0 <= i < |cut| ==> cut[i] == (line + "\r")[i];
    assert '\n' !in cut;
  }

  lemma CutInBlankLine(n: nat, tail: string)
    requires n <= MAX_INT && (tail == "" || tail == "\r")
    ensures Bodies(LengthLine(n) + "\r\n" + tail) == []
  {
    hide LengthLine, HeaderLine, Decimal;
    var line := LengthLine(n);
    LengthLineIsRead(n);
    var cut := line + "\r\n" + tail;
    assert cut == (line + "\r") + ['\n'] + tail;
    IndexByteAfter(line + "\r", '\n', tail);
    assert cut[..|line| + 2] == line + "\r\n" && cut[|line| + 2..] == tail;
    TrimLineEnd(line);
    assert line != "" by { LengthLineIsNotBlank(n); }
  }

  lemma LengthLineIsNotBlank(n: nat)
    ensures LengthLine(n) != ""
  {
    assert LengthLine(n)[0] == 'C';
  }

  /** A frame cut short anywhere yields nothing. */
  lemma CutFrame(body: string, n: nat)
    requires 0 < |body| <= MAX_INT && n < |WriteFrame(body)|
    ensures Bodies(WriteFrame(body)[..n]) == []
  {
    hide Bodies, LengthLine, Decimal;
    var line := LengthLine(|body|);
    var cut := WriteFrame(body)[..n];
    LengthLineIsRead(|body|);
    assert WriteFrame(body) == line + "\r\n\r\n" + body by { FrameIsLine(body); }
    if n < |line| + 2 {
      assert cut == (line + "\r")[..n];
      CutInFirstLine(line, cut);
    } else if n < |line| + 4 {
      var tail := if n == |line| + 2 then "" else "\r";
      assert cut == line + "\r\n" + tail;
      CutInBlankLine(|body|, tail);
    } else {
      var part := body[..n - |line| - 4];
      assert cut == line + "\r\n\r\n" + part;
      CutInBody(|body|, part);
    }
  }

  lemma FrameIsLine(body: string)
    ensures WriteFrame(body) == LengthLine(|body|) + "\r\n\r\n" + body
  {
  }

  lemma CutInBody(n: nat, part: string)
    requires n <= MAX_INT && |part| < n
    ensures Bodies(LengthLine(n) + "\r\n\r\n" + part) == []
  {
    hide LengthLine;
    HeadersOfFrame(n, part);
  }

  /** How many of the frames lie wholly within the first `n` bytes of the printed stream. */
  function CompleteFrames(bodies: seq<string>, n: nat): (k: nat)
    ensures k <= |bodies|
  {
    if bodies == [] || n < |WriteFrame(bodies[0])| then 0
    else 1 + CompleteFrames(bodies[1..], n - |WriteFrame(bodies[0])|)
  }

  lemma CutStream(bodies: seq<string>, n: nat)
    requires bodies != [] && n <= |WriteAll(bodies)|
    ensures |WriteAll(bodies)| == |WriteFrame(bodies[0])| + |WriteAll(bodies[1..])|
    ensures n < |WriteFrame(bodies[0])| ==>
      WriteAll(bodies)[..n] == WriteFrame(bodies[0])[..n] && CompleteFrames(bodies, n) == 0
    ensures n >= |WriteFrame(bodies[0])| ==>
      var m := n - |WriteFrame(bodies[0])|;
      && WriteAll(bodies)[..n] == WriteFrame(bodies[0]) + WriteAll(bodies[1..])[..m]
      && CompleteFrames(bodies, n) == CompleteFrames(bodies[1..], m) + 1
  {
    hide WriteFrame;
  }

  lemma SendableTail(bodies: seq<string>)
    requires bodies != [] && Sendable(bodies)
    ensures 0 < |bodies[0]| <= MAX_INT && Sendable(bodies[1..])
  {
  }

  lemma PrefixCons(bodies: seq<string>, k: nat)
    requires k < |bodies|
    ensures bodies[..k + 1] == [bodies[0]] + bodies[1..][..k]
  {
  }

  /** A stream cut at any byte yields exactly the frames that are complete. */
  lemma {:induction false} TruncatedStream(bodies: seq<string>, n: nat)
    requires Sendable(bodies) && n <= |WriteAll(bodies)|
    ensures Bodies(WriteAll(bodies)[..n]) == bodies[..CompleteFrames(bodies, n)]
  {
    hide Bodies, WriteFrame, WriteAll, CompleteFrames, Sendable;
    if bodies == [] {
      NothingToRead(n);
      return;
    }
    SendableTail(bodies);
    CutStream(bodies, n);
    if n < |WriteFrame(bodies[0])| {
      CutFrame(bodies[0], n);
      return;
    }
    var m := n - |WriteFrame(bodies[0])|;
    BodyOfFrame(bodies[0], WriteAll(bodies[1..])[..m]);
    TruncatedStream(bodies[1..], m);
    PrefixCons(bodies, CompleteFrames(bodies[1..], m));
  }

  lemma NothingToRead(n: nat)
    requires n <= |WriteAll([])|
    ensures Bodies(WriteAll([])[..n]) == [] && CompleteFrames([], n) == 0
  {
    assert WriteAll([])[..n] == "";
  }
}
