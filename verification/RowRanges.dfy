/**
 Rows to bytes, two ways: the scan that bounds a tree walk (`internal/store/edges.go`) and
 the line slice a caller sees (`internal/source/source.go`), and exactly when they agree.
 */
module RowRanges {
  import opened Wrappers

  // ----- lines

  /** The first newline of `s`, or its length. */
  function LineEnd(s: string): (k: nat)
    ensures k <= |s|
    ensures forall i :: 0 <= i < k ==> s[i] != '\n'
    ensures k < |s| ==> s[k] == '\n'
  {
    if s == "" || s[0] == '\n' then 0 else 1 + LineEnd(s[1..])
  }

  /** `bytes.Split(s, "\n")`. */
  function Split(s: string): (r: seq<string>)
    ensures r != []
    decreases |s|
  {
    var k := LineEnd(s);
    if k == |s| then [s] else [s[..k]] + Split(s[k + 1..])
  }

  /** `bytes.Join(lines, "\n")`. */
  function Join(lines: seq<string>): string {
    if lines == [] then "" else if |lines| == 1 then lines[0] else lines[0] + "\n" + Join(lines[1..])
  }

  /** `File.Lines`: split at newlines, without the empty piece after a final newline. */
  function Lines(s: string): seq<string> {
    if s == "" then []
    else
      var raw := Split(s);
      if raw[|raw| - 1] == "" then raw[..|raw| - 1] else raw
  }

  /** The two error returns of `File.Slice`, and the panic of its slice expression when the rows run backwards. */
  datatype SliceError = EmptyRange | OutOfBounds | Panic

  /** `File.Slice` of rows `start` up to `end`. */
  function Slice(s: string, start: int, end: int): Result<string, SliceError> {
    if start == end then Err(EmptyRange)
    else if start < 0 then Err(OutOfBounds)
    else if start >= |Lines(s)| then Err(OutOfBounds)
    else if end > |Lines(s)| then Err(OutOfBounds)
    else if end < start then Err(Panic)
    else Ok(Join(Lines(s)[start..end]))
  }

  lemma {:induction false} LinesStep(s: string)
    requires s != ""
    ensures LineEnd(s) == |s| ==> Lines(s) == [s]
    ensures LineEnd(s) < |s| ==> Lines(s) == [s[..LineEnd(s)]] + Lines(s[LineEnd(s) + 1..])
  {
    hide LineEnd;
    var k := LineEnd(s);
    if k < |s| {
      var rest := s[k + 1..];
      SplitStep(s, k);
      if rest == "" { SplitNothing(rest); }
    } else {
      assert Split(s) == [s];
    }
  }

  lemma SplitStep(s: string, k: nat)
    requires k == LineEnd(s) < |s|
    ensures Split(s) == [s[..k]] + Split(s[k + 1..])
    ensures Split(s)[|Split(s)| - 1] == Split(s[k + 1..])[|Split(s[k + 1..])| - 1]
    ensures Split(s)[..|Split(s)| - 1] == [s[..k]] + Split(s[k + 1..])[..|Split(s[k + 1..])| - 1]
  {
    hide LineEnd;
  }

  lemma SplitNothing(s: string)
    requires s == ""
    ensures Split(s) == [""]
  {
  }

  // ----- the scan

  /** The scan from byte `i`, in row `row`, with start `idx` found so far (zero while none is). */
  function ScanFrom(src: string, startRow: int, endRow: int, i: nat, row: int, idx: nat): (nat, nat)
    requires i <= |src|
    decreases |src| - i
  {
    if i == |src| then (idx, |src|)
    else
      var idx' := if row == startRow && idx == 0 then i else idx;
      if src[i] != '\n' then ScanFrom(src, startRow, endRow, i + 1, row, idx')
      else if row + 1 == endRow then (idx', i)
      else ScanFrom(src, startRow, endRow, i + 1, row + 1, idx')
  }

  function ByteRange(src: string, startRow: int, endRow: int): (nat, nat) {
    ScanFrom(src, startRow, endRow, 0, 0, 0)
  }

  method ByteRangeFromRows(src: string, startRow: int, endRow: int) returns (lo: nat, hi: nat)
    ensures (lo, hi) == ByteRange(src, startRow, endRow)
  {
    var row, idx := 0, 0;
    for i := 0 to |src|
      invariant ScanFrom(src, startRow, endRow, i, row, idx) == ByteRange(src, startRow, endRow)
    {
      if row == startRow && idx == 0 {
        idx := i;
      }
      if src[i] == '\n' {
        row := row + 1;
        if row == endRow {
          return idx, i;
        }
      }
    }
    return idx, |src|;
  }

  /** The scan over the rest of one line, once the start is settled or the row is not the start row. */
  lemma {:induction false} ScanLine(src: string, startRow: int, endRow: int, i: nat, row: int, idx: nat)
    requires i <= |src| && (row != startRow || idx > 0)
    ensures
      var k := i + LineEnd(src[i..]);
      ScanFrom(src, startRow, endRow, i, row, idx) ==
        if k == |src| then (idx, |src|)
        else if row + 1 == endRow then (idx, k)
        else ScanFrom(src, startRow, endRow, k + 1, row + 1, idx)
    decreases |src| - i
  {
    if i < |src| && src[i] != '\n' {
      ScanLine(src, startRow, endRow, i + 1, row, idx);
      assert src[i..][1..] == src[i + 1..];
    }
  }

  /** The scan over the start row, from a byte other than the first, settles the start at that byte. */
  lemma ScanStartRow(src: string, startRow: int, endRow: int, i: nat)
    requires 0 < i < |src|
    ensures
      var k := i + LineEnd(src[i..]);
      ScanFrom(src, startRow, endRow, i, startRow, 0) ==
        if k == |src| then (i, |src|)
        else if startRow + 1 == endRow then (i, k)
        else ScanFrom(src, startRow, endRow, k + 1, startRow + 1, i)
  {
    if src[i] != '\n' {
      ScanLine(src, startRow, endRow, i + 1, startRow, i);
      assert src[i..][1..] == src[i + 1..];
    }
  }

  /** One line, a newline, and the lines after it. */
  lemma OneMoreLine(src: string, i: nat, hi: nat, n: nat)
    requires i < |src| && LineEnd(src[i..]) < |src| - i
    requires 2 <= n <= |Lines(src[i..])|
    requires var next := i + LineEnd(src[i..]) + 1;
      next <= hi <= |src| && n - 1 <= |Lines(src[next..])| && src[next..hi] == Join(Lines(src[next..])[..n - 1])
    ensures src[i..hi] == Join(Lines(src[i..])[..n])
  {
    hide Lines, LineEnd;
    var t := src[i..];
    var k := LineEnd(t);
    LinesStep(t);
    assert t[k + 1..] == src[i + k + 1..];
    var lines := Lines(t)[..n];
    assert lines[0] == t[..k] == src[i..i + k];
    assert lines[1..] == Lines(src[i + k + 1..])[..n - 1];
    assert src[i..hi] == src[i..i + k] + "\n" + src[i + k + 1..hi];
  }

  /** A single line, ended by a newline or by the end of the text. */
  lemma OneLine(src: string, i: nat)
    requires i < |src|
    ensures |Lines(src[i..])| >= 1
    ensures src[i..i + LineEnd(src[i..])] == Join(Lines(src[i..])[..1])
    ensures LineEnd(src[i..]) == |src| - i ==> |Lines(src[i..])| == 1
    ensures LineEnd(src[i..]) < |src| - i ==>
      Lines(src[i..]) == [src[i..i + LineEnd(src[i..])]] + Lines(src[i + LineEnd(src[i..]) + 1..])
  {
    hide Lines, LineEnd;
    var t := src[i..];
    var k := LineEnd(t);
    LinesStep(t);
    assert t[..k] == src[i..i + k];
    if k < |t| { assert t[k + 1..] == src[i + k + 1..]; }
    if k == |t| { assert t[..k] == t; }
    assert Lines(t)[..1] == [t[..k]];
  }

  lemma NoLines()
    ensures Lines("") == []
  {
  }

  /** With the start settled or its row behind, the scan ends where `n` more lines end. */
  lemma {:induction false} ScanRest(src: string, startRow: int, endRow: int, i: nat, row: int, idx: nat)
    requires i <= |src| && (idx > 0 || startRow < row)
    requires row < endRow && endRow - row <= |Lines(src[i..])|
    ensures
      var (lo, hi) := ScanFrom(src, startRow, endRow, i, row, idx);
      lo == idx && i <= hi <= |src| && src[i..hi] == Join(Lines(src[i..])[..endRow - row])
    decreases |src| - i
  {
    hide Lines, LineEnd, ScanFrom, Join;
    NoLines();
    assert src[i..] != "";
    OneLine(src, i);
    ScanLine(src, startRow, endRow, i, row, idx);
    var next := i + LineEnd(src[i..]) + 1;
    if next <= |src| && row + 1 < endRow {
      ScanRest(src, startRow, endRow, next, row + 1, idx);
      var hi := ScanFrom(src, startRow, endRow, next, row + 1, idx).1;
      OneMoreLine(src, i, hi, endRow - row);
    }
  }

  /** From the start row's first byte, not the text's, the scan selects to the end of the rows asked for. */
  lemma StartRows(src: string, startRow: int, endRow: int, i: nat)
    requires 0 < i < |src| && startRow < endRow && endRow - startRow <= |Lines(src[i..])|
    ensures
      var (lo, hi) := ScanFrom(src, startRow, endRow, i, startRow, 0);
      lo == i && i <= hi <= |src| && src[i..hi] == Join(Lines(src[i..])[..endRow - startRow])
  {
    hide Lines, LineEnd, ScanFrom, Join;
    OneLine(src, i);
    ScanStartRow(src, startRow, endRow, i);
    var next := i + LineEnd(src[i..]) + 1;
    if next <= |src| && startRow + 1 < endRow {
      ScanRest(src, startRow, endRow, next, startRow + 1, i);
      var hi := ScanFrom(src, startRow, endRow, next, startRow + 1, i).1;
      OneMoreLine(src, i, hi, endRow - startRow);
    }
  }

  /** From a byte other than the first, at the start of row `row`, the scan selects the rows asked for. */
  lemma {:induction false} ScanRows(src: string, startRow: int, endRow: int, i: nat, row: int)
    requires 0 < i <= |src|
    requires row <= startRow < endRow && endRow - row <= |Lines(src[i..])|
    ensures
      var (lo, hi) := ScanFrom(src, startRow, endRow, i, row, 0);
      lo <= hi <= |src| && src[lo..hi] == Join(Lines(src[i..])[startRow - row..endRow - row])
    decreases |src| - i
  {
    hide Lines, LineEnd, ScanFrom, Join;
    NoLines();
    assert src[i..] != "";
    if row == startRow {
      StartRows(src, startRow, endRow, i);
    } else {
      OneLine(src, i);
      ScanLine(src, startRow, endRow, i, row, 0);
      var next := i + LineEnd(src[i..]) + 1;
      ScanRows(src, startRow, endRow, next, row + 1);
      assert Lines(src[i..])[startRow - row..endRow - row] == Lines(src[next..])[startRow - row - 1..endRow - row - 1];
    }
  }

  /** The first byte's row is scanned with its start mistaken when a second byte follows on the same row. */
  predicate StartsLate(src: string, startRow: int) {
    startRow == 0 && |src| >= 2 && src[0] != '\n'
  }

  /** The first line's end, seen from the second byte. */
  lemma SecondByte(src: string)
    requires |src| >= 2 && src[0] != '\n'
    ensures LineEnd(src) == 1 + LineEnd(src[1..])
  {
  }

  /** What the scan does to the first row when that is where it starts. */
  lemma ScanFirstRow(src: string, endRow: int)
    requires src != ""
    ensures
      var lo := if StartsLate(src, 0) then 1 else 0;
      var k := LineEnd(src);
      ByteRange(src, 0, endRow) ==
        if k == |src| then (lo, |src|)
        else if 1 == endRow then (lo, k)
        else ScanFrom(src, 0, endRow, k + 1, 1, lo)
  {
    if src[0] != '\n' && |src| >= 2 {
      SecondByte(src);
      ScanStartRow(src, 0, endRow, 1);
    } else if src[0] != '\n' {
      assert LineEnd(src[1..]) == 0;
      assert ScanFrom(src, 0, endRow, 1, 0, 0) == (0, 1);
    } else {
      assert LineEnd(src) == 0;
    }
  }

  lemma FirstRows(src: string, endRow: int)
    requires 0 < endRow <= |Lines(src)|
    ensures
      var (lo, hi) := ByteRange(src, 0, endRow);
      && lo == (if StartsLate(src, 0) then 1 else 0)
      && lo <= hi <= |src| && src[..hi] == Join(Lines(src)[..endRow])
  {
    hide Lines, LineEnd, ScanFrom, Join, ByteRange;
    NoLines();
    assert src[0..] == src;
    assert src != "";
    OneLine(src, 0);
    ScanFirstRow(src, endRow);
    if src[0] != '\n' { LineEndPositive(src); }
    var lo := if StartsLate(src, 0) then 1 else 0;
    var next := LineEnd(src) + 1;
    if next <= |src| && 1 < endRow {
      ScanRest(src, 0, endRow, next, 1, lo);
      var hi := ByteRange(src, 0, endRow).1;
      OneMoreLine(src, 0, hi, endRow);
      assert src[0..hi] == src[..hi];
    } else {
      assert src[0..LineEnd(src)] == src[..LineEnd(src)];
    }
  }

  lemma LineEndPositive(src: string)
    requires src != "" && src[0] != '\n'
    ensures LineEnd(src) > 0
  {
  }

  lemma LaterRows(src: string, startRow: int, endRow: int)
    requires 0 < startRow < endRow <= |Lines(src)|
    ensures
      var (lo, hi) := ByteRange(src, startRow, endRow);
      lo <= hi <= |src| && src[lo..hi] == Join(Lines(src)[startRow..endRow])
  {
    hide Lines, LineEnd, ScanFrom, Join;
    NoLines();
    assert src[0..] == src;
    assert src != "";
    OneLine(src, 0);
    ScanLine(src, startRow, endRow, 0, 0, 0);
    var next := LineEnd(src) + 1;
    ScanRows(src, startRow, endRow, next, 1);
    assert Lines(src)[startRow..endRow] == Lines(src[next..])[startRow - 1..endRow - 1];
  }

  /**
   For rows the text has, the scanned bytes are the slice of those rows exactly unless the
   scan starts late; then they are the slice without its first byte.
   */
  lemma ScanSelectsSliceIff(src: string, startRow: int, endRow: int)
    requires 0 <= startRow < endRow <= |Lines(src)|
    ensures
      var (lo, hi) := ByteRange(src, startRow, endRow);
      && lo <= hi <= |src|
      && (Slice(src, startRow, endRow) == Ok(src[lo..hi]) <==> !StartsLate(src, startRow))
      && (StartsLate(src, startRow) ==> lo == 1 && Slice(src, startRow, endRow) == Ok([src[0]] + src[lo..hi]))
  {
    hide Lines, ScanFrom, ByteRange;
    if startRow == 0 {
      FirstRows(src, endRow);
      var hi := ByteRange(src, startRow, endRow).1;
      assert Lines(src)[0..endRow] == Lines(src)[..endRow];
      if StartsLate(src, 0) { assert src[..hi] == [src[0]] + src[1..hi]; }
    } else {
      LaterRows(src, startRow, endRow);
    }
  }

  /** A slice has text exactly for a non-empty range of rows the text has; an empty range, rows outside and rows that run backwards are told apart. */
  lemma SliceIsOkIff(s: string, start: int, end: int)
    ensures Slice(s, start, end).Ok? <==> 0 <= start < end <= |Lines(s)|
    ensures Slice(s, start, end) == Err(EmptyRange) <==> start == end
    ensures Slice(s, start, end) == Err(Panic) <==> 0 <= end < start < |Lines(s)| || (0 <= start < |Lines(s)| && end < 0)
  {
    hide Lines, Join;
  }
}
