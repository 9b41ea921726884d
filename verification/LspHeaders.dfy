/**
 Which header blocks the client reads a length from: its own print-out is one of many. The
 length may stand among other lines, in any letter case and with blanks around name and value.
 */
module LspHeaders {
  import opened Wrappers
  import opened LspFraming

  predicate Blank(s: string) {
    forall i :: 0 <= i < |s| ==> s[i] == ' ' || s[i] == '\t'
  }

  /** Equal but for the case of ASCII letters; `lower` has none that are upper-case. */
  predicate SameLetters(s: string, lower: string) {
    |s| == |lower| && forall i :: 0 <= i < |s| ==> s[i] == lower[i] || ('a' <= lower[i] <= 'z' && s[i] == lower[i] - ('a' - 'A'))
  }

  predicate OneLine(line: string) {
    line != "" && '\n' !in line && '\r' !in line
  }

  /** `s` is `x` with blanks around it. */
  ghost predicate Padded(s: string, x: string) {
    exists a, b :: Blank(a) && Blank(b) && s == a + x + b
  }

  /** A field of this name, with blanks allowed around name and value. */
  ghost predicate Field(line: string, name: string, value: string) {
    exists left, right :: Padded(left, name) && Padded(right, value) && line == left + ":" + right
  }

  /** The integer in decimal, with its sign; a plus sign may be left out. */
  predicate Written(value: string, n: int) {
    if n < 0 then value == "-" + Decimal(-n) else value == Decimal(n) || value == "+" + Decimal(n)
  }

  ghost predicate LengthField(line: string, n: int) {
    OneLine(line) && exists name, value :: SameLetters(name, "content-length") && Written(value, n) && Field(line, name, value)
  }

  /** A line without a colon, or a field of another name. */
  ghost predicate OtherLine(line: string) {
    && OneLine(line)
    && (':' in line ==> exists name, rest :: OtherField(line, name, rest))
  }

  ghost predicate OtherField(line: string, name: string, rest: string) {
    && !SameLetters(name, "content-length") && ':' !in name
    && (name == "" || (!IsSpace(name[0]) && !IsSpace(name[|name| - 1])))
    && exists left :: Padded(left, name) && line == left + ":" + rest
  }

  function Block(lines: seq<string>): string {
    if lines == [] then "\r\n" else lines[0] + "\r\n" + Block(lines[1..])
  }

  // ----- blanks and letter case

  lemma {:induction false} TrimLeftBlank(a: string, x: string)
    requires Blank(a) && (x == "" || !IsSpace(x[0]))
    ensures TrimLeft(a + x, IsSpace) == x
  {
    if a == "" {
      assert a + x == x;
    } else {
      assert (a + x)[1..] == a[1..] + x;
      TrimLeftBlank(a[1..], x);
    }
  }

  lemma {:induction false} TrimRightBlank(x: string, b: string)
    requires Blank(b) && (x == "" || !IsSpace(x[|x| - 1]))
    ensures TrimRight(x + b, IsSpace) == x
  {
    if b == "" {
      assert x + b == x;
    } else {
      var n := |b| - 1;
      assert (x + b)[..|x + b| - 1] == x + b[..n];
      TrimRightBlank(x, b[..n]);
    }
  }

  /** Blanks around a text that does not begin or end with one are trimmed, and nothing else. */
  lemma TrimBlank(a: string, x: string, b: string)
    requires Blank(a) && Blank(b) && (x == "" || (!IsSpace(x[0]) && !IsSpace(x[|x| - 1])))
    ensures TrimSpace(a + x + b) == x
  {
    if x == "" {
      assert a + x + b == (a + b) + "";
      TrimLeftBlank(a + b, "");
    } else {
      assert a + x + b == a + (x + b);
      TrimLeftBlank(a, x + b);
      TrimRightBlank(x, b);
    }
  }

  lemma TrimPadded(s: string, x: string)
    requires Padded(s, x) && (x == "" || (!IsSpace(x[0]) && !IsSpace(x[|x| - 1])))
    ensures TrimSpace(s) == x
    ensures ':' !in x ==> ':' !in s
  {
    var a, b :| Blank(a) && Blank(b) && s == a + x + b;
    TrimBlank(a, x, b);
  }

  lemma LowerIff(s: string)
    ensures ToLower(s) == "content-length" <==> SameLetters(s, "content-length")
  {
    var lower := "content-length";
    if SameLetters(s, lower) {
      forall i | 0 <= i < |s| ensures LowerChar(s[i]) == lower[i] {}
      assert ToLower(s) == lower;
    }
    if ToLower(s) == lower {
      forall i | 0 <= i < |s| ensures s[i] == lower[i] || ('a' <= lower[i] <= 'z' && s[i] == lower[i] - ('a' - 'A')) {
        assert LowerChar(s[i]) == lower[i];
      }
    }
  }

  // ----- one line

  lemma ColonAt(name: string, rest: string)
    requires ':' !in name
    ensures var line := name + ":" + rest;
      IndexByte(line, ':') == |name| && line[..|name|] == name && line[|name| + 1..] == rest
  {
    assert name + ":" + rest == name + [':'] + rest;
    IndexByteAfter(name, ':', rest);
  }

  lemma FieldIsRead(left: string, name: string, right: string, value: string, before: int)
    requires ':' !in left && TrimSpace(left) == name && TrimSpace(right) == value
    ensures HeaderLine(left + ":" + right, before) == if ToLower(name) == "content-length" then Atoi(value) else Some(before)
  {
    hide TrimSpace, ToLower, Atoi, IndexByte;
    ColonAt(left, right);
  }

  lemma LengthFieldIsRead(line: string, n: int, before: int)
    requires LengthField(line, n) && -MAX_INT <= n <= MAX_INT
    ensures HeaderLine(line, before) == Some(n)
  {
    hide TrimSpace, ToLower, Atoi, Decimal, IndexByte, HeaderLine, SameLetters, Padded, IsSpace, OneLine, Written;
    var name, value :| SameLetters(name, "content-length") && Written(value, n) && Field(line, name, value);
    var left, right :| Padded(left, name) && Padded(right, value) && line == left + ":" + right;
    LetterEnds(name);
    TrimPadded(left, name);
    LowerIff(name);
    WrittenIsRead(value, n);
    TrimPadded(right, value);
    FieldIsRead(left, name, right, value, before);
  }

  lemma WrittenIsRead(value: string, n: int)
    requires Written(value, n) && -MAX_INT <= n <= MAX_INT
    ensures value != "" && !IsSpace(value[0]) && !IsSpace(value[|value| - 1])
    ensures Atoi(value) == Some(n)
  {
    hide Decimal;
    var m := if n < 0 then -n else n;
    var d := Decimal(m);
    DecimalRoundTrip(m);
    DigitEnds(d);
    if value != d { assert value[1..] == d; }
  }

  lemma DigitEnds(d: string)
    requires AllDigits(d) && d != ""
    ensures !IsSpace(d[0]) && !IsSpace(d[|d| - 1])
  {
  }

  lemma LetterEnds(name: string)
    requires SameLetters(name, "content-length")
    ensures name != "" && ':' !in name && !IsSpace(name[0]) && !IsSpace(name[|name| - 1])
  {
    assert ':' !in "content-length";
    assert name[0] == 'c' || name[0] == 'C';
    assert name[13] == 'h' || name[13] == 'H';
  }

  lemma OtherLineIsSkipped(line: string, before: int)
    requires OtherLine(line)
    ensures HeaderLine(line, before) == Some(before)
  {
    hide TrimSpace, ToLower, Atoi, IndexByte, HeaderLine;
    if ':' in line {
      var name, rest :| OtherField(line, name, rest);
      var left :| Padded(left, name) && line == left + ":" + rest;
      TrimPadded(left, name);
      LowerIff(name);
      FieldIsRead(left, name, rest, TrimSpace(rest), before);
    } else {
      NoColon(line, before);
    }
  }

  lemma NoColon(line: string, before: int)
    requires ':' !in line
    ensures HeaderLine(line, before) == Some(before)
  {
  }

  // ----- a block of lines

  lemma BlockStep(line: string, more: string, before: int)
    requires OneLine(line)
    ensures ReadHeaders(line + "\r\n" + more, before) ==
      match HeaderLine(line, before)
      case None => None
      case Some(n) => ReadHeaders(more, n)
  {
    hide ReadHeaders, HeaderLine, TrimRight;
    var input := line + "\r\n" + more;
    assert input == (line + "\r") + ['\n'] + more;
    IndexByteAfter(line + "\r", '\n', more);
    assert input[..|line| + 2] == line + "\r\n" && input[|line| + 2..] == more;
    TrimLineEnd(line);
    assert input[0..] == input;
    HeaderStep(input, 0, before);
  }

  lemma {:induction false} OthersAreSkipped(lines: seq<string>, more: string, before: int)
    requires forall i :: 0 <= i < |lines| ==> OtherLine(lines[i])
    ensures ReadHeaders(Block(lines) + more, before) == Some(Headers(before, more))
  {
    hide ReadHeaders, HeaderLine;
    if lines == [] {
      BlankHeader(before, more);
    } else {
      assert Block(lines) + more == lines[0] + "\r\n" + (Block(lines[1..]) + more);
      BlockStep(lines[0], Block(lines[1..]) + more, before);
      OtherLineIsSkipped(lines[0], before);
      OthersAreSkipped(lines[1..], more, before);
    }
  }

  /** A length field at place `k`, other lines before and after it: the length is read, and the block with its blank line consumed. */
  lemma {:induction false} LengthIsFound(lines: seq<string>, k: nat, n: int, more: string, before: int)
    requires k < |lines| && LengthField(lines[k], n) && -MAX_INT <= n <= MAX_INT
    requires forall i :: 0 <= i < |lines| && i != k ==> OtherLine(lines[i])
    ensures ReadHeaders(Block(lines) + more, before) == Some(Headers(n, more))
    decreases k
  {
    hide ReadHeaders, HeaderLine, LengthField, OtherLine;
    assert Block(lines) + more == lines[0] + "\r\n" + (Block(lines[1..]) + more);
    assert OneLine(lines[0]) by { assert k == 0 || OtherLine(lines[0]); LinesAreOne(lines[0], n); }
    BlockStep(lines[0], Block(lines[1..]) + more, before);
    if k == 0 {
      LengthFieldIsRead(lines[0], n, before);
      OthersAreSkipped(lines[1..], more, n);
    } else {
      OtherLineIsSkipped(lines[0], before);
      LengthIsFound(lines[1..], k - 1, n, more, before);
    }
  }

  lemma LinesAreOne(line: string, n: int)
    requires LengthField(line, n) || OtherLine(line)
    ensures OneLine(line)
  {
  }

  /** A frame whose header block has the body's length among any other lines is read as its body, whatever follows. */
  lemma AnyFrameIsRead(lines: seq<string>, k: nat, body: string, rest: string)
    requires k < |lines| && LengthField(lines[k], |body|) && 0 < |body| <= MAX_INT
    requires forall i :: 0 <= i < |lines| && i != k ==> OtherLine(lines[i])
    ensures Bodies(Block(lines) + body + rest) == [body] + Bodies(rest)
  {
    hide ReadHeaders, LengthField, OtherLine;
    LengthIsFound(lines, k, |body|, body + rest, 0);
    assert Block(lines) + body + rest == Block(lines) + (body + rest);
    assert (body + rest)[..|body|] == body && (body + rest)[|body|..] == rest;
  }

  /** A length of zero or less ends the reading. */
  lemma NoPositiveLengthEnds(lines: seq<string>, k: nat, n: int, rest: string)
    requires k < |lines| && LengthField(lines[k], n) && -MAX_INT <= n <= 0
    requires forall i :: 0 <= i < |lines| && i != k ==> OtherLine(lines[i])
    ensures Bodies(Block(lines) + rest) == []
  {
    hide ReadHeaders, LengthField, OtherLine;
    LengthIsFound(lines, k, n, rest, 0);
  }

  /** A header block without a length ends the reading. */
  lemma NoLengthEnds(lines: seq<string>, rest: string)
    requires forall i :: 0 <= i < |lines| ==> OtherLine(lines[i])
    ensures Bodies(Block(lines) + rest) == []
  {
    hide ReadHeaders, OtherLine;
    OthersAreSkipped(lines, rest, 0);
  }

  /** A length field whose value is empty, or has a character that is no digit and no leading sign. */
  ghost predicate MalformedField(line: string, name: string, value: string) {
    && OneLine(line) && SameLetters(name, "content-length") && Field(line, name, value)
    && (value == "" || (!IsSpace(value[0]) && !IsSpace(value[|value| - 1])))
    && (value == "" || exists i :: 0 <= i < |value| && !('0' <= value[i] <= '9') && (i > 0 || (value[0] != '-' && value[0] != '+')))
  }

  lemma MalformedIsNone(line: string, name: string, value: string, before: int)
    requires MalformedField(line, name, value)
    ensures HeaderLine(line, before) == None
  {
    hide TrimSpace, ToLower, IndexByte, HeaderLine, SameLetters, Padded, IsSpace, OneLine;
    var left, right :| Padded(left, name) && Padded(right, value) && line == left + ":" + right;
    LetterEnds(name);
    TrimPadded(left, name);
    LowerIff(name);
    TrimPadded(right, value);
    NoInteger(value);
    FieldIsRead(left, name, right, value, before);
  }

  lemma NoInteger(value: string)
    requires value == "" || exists i :: 0 <= i < |value| && !('0' <= value[i] <= '9') && (i > 0 || (value[0] != '-' && value[0] != '+'))
    ensures Atoi(value) == None
  {
    if value != "" {
      var i :| 0 <= i < |value| && !('0' <= value[i] <= '9') && (i > 0 || (value[0] != '-' && value[0] != '+'));
      if value[0] == '-' || value[0] == '+' { assert value[1..][i - 1] == value[i]; }
    }
  }

  /** A line no length can be read from. */
  ghost predicate BadLine(line: string) {
    OneLine(line) && forall before :: HeaderLine(line, before) == None
  }

  lemma {:induction false} BadLineIsFound(lines: seq<string>, k: nat, more: string, before: int)
    requires k < |lines| && BadLine(lines[k])
    requires forall i :: 0 <= i < k ==> OtherLine(lines[i])
    ensures ReadHeaders(Block(lines) + more, before) == None
    decreases k
  {
    hide ReadHeaders, HeaderLine, OtherLine;
    assert Block(lines) + more == lines[0] + "\r\n" + (Block(lines[1..]) + more);
    if k == 0 {
      BlockStep(lines[0], Block(lines[1..]) + more, before);
    } else {
      LinesAreOne(lines[0], 0);
      BlockStep(lines[0], Block(lines[1..]) + more, before);
      OtherLineIsSkipped(lines[0], before);
      BadLineIsFound(lines[1..], k - 1, more, before);
    }
  }

  lemma MalformedIsBad(line: string, name: string, value: string)
    requires MalformedField(line, name, value)
    ensures BadLine(line)
  {
    hide HeaderLine, Field;
    forall before ensures HeaderLine(line, before) == None { MalformedIsNone(line, name, value, before); }
  }

  lemma TooLargeIsBad(line: string, n: int)
    requires LengthField(line, n) && n > MAX_INT
    ensures BadLine(line)
  {
    hide TrimSpace, ToLower, Atoi, Decimal, IndexByte, HeaderLine, SameLetters, Padded, IsSpace, Written;
    var name, value :| SameLetters(name, "content-length") && Written(value, n) && Field(line, name, value);
    var left, right :| Padded(left, name) && Padded(right, value) && line == left + ":" + right;
    LetterEnds(name);
    TrimPadded(left, name);
    LowerIff(name);
    TooLarge(value, n);
    TrimPadded(right, value);
    forall before ensures HeaderLine(line, before) == None { FieldIsRead(left, name, right, value, before); }
  }

  lemma TooLarge(value: string, n: int)
    requires Written(value, n) && n > MAX_INT
    ensures value != "" && !IsSpace(value[0]) && !IsSpace(value[|value| - 1])
    ensures Atoi(value) == None
  {
    hide Decimal;
    var d := Decimal(n);
    DecimalRoundTrip(n);
    DigitEnds(d);
    if value != d { assert value[1..] == d; }
  }

  /** So does a length beyond the 64-bit range. */
  lemma TooLargeEnds(lines: seq<string>, k: nat, n: int, more: string)
    requires k < |lines| && LengthField(lines[k], n) && n >= 0x8000_0000_0000_0000
    requires forall i :: 0 <= i < k ==> OtherLine(lines[i])
    ensures Bodies(Block(lines) + more) == []
  {
    hide ReadHeaders, OtherLine, LengthField, BadLine;
    TooLargeIsBad(lines[k], n);
    BadLineIsFound(lines, k, more, 0);
  }

  /** So does a malformed length, wherever it stands among other lines. */
  lemma MalformedEnds(lines: seq<string>, k: nat, name: string, value: string, more: string)
    requires k < |lines| && MalformedField(lines[k], name, value)
    requires forall i :: 0 <= i < k ==> OtherLine(lines[i])
    ensures Bodies(Block(lines) + more) == []
  {
    hide ReadHeaders, OtherLine, MalformedField, BadLine;
    MalformedIsBad(lines[k], name, value);
    BadLineIsFound(lines, k, more, 0);
  }

  /** The client's own frames are of that form. */
  lemma OwnFrameIsOne(body: string)
    ensures WriteFrame(body) == Block([LengthLine(|body|)]) + body
    ensures LengthField(LengthLine(|body|), |body|)
  {
    hide LengthField;
    var line := LengthLine(|body|);
    assert Block([line]) == line + "\r\n" + "\r\n" by { OneLineBlock(line); }
    OwnField(|body|);
  }

  lemma OneLineBlock(line: string)
    ensures Block([line]) == line + "\r\n" + "\r\n"
  {
    assert [line][1..] == [];
    assert Block([]) == "\r\n";
  }

  lemma OwnField(n: nat)
    ensures LengthField(LengthLine(n), n)
  {
    hide Decimal, SameLetters;
    var line, d, name := LengthLine(n), Decimal(n), "Content-Length";
    OwnName();
    DecimalRoundTrip(n);
    assert "Content-Length: " == name + ":" + " ";
    assert line == name + ":" + (" " + d);
    assert Padded(name, name) by { PadNone(name); }
    assert Padded(" " + d, d) by { PadOne(d); }
    assert Written(d, n) && Field(line, name, d);
    assert OneLine(line) by { OwnLine(d); }
  }

  lemma PadNone(x: string)
    ensures Padded(x, x)
  {
    assert Blank("") && x == "" + x + "";
  }

  lemma PadOne(x: string)
    ensures Padded(" " + x, x)
  {
    assert Blank("") && Blank(" ") && " " + x == " " + x + "";
  }

  lemma OwnName()
    ensures SameLetters("Content-Length", "content-length")
  {
  }

  lemma OwnLine(d: string)
    requires AllDigits(d)
    ensures OneLine("Content-Length: " + d)
  {
    assert ("Content-Length: " + d)[0] == 'C';
  }
}
