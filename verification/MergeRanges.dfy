/**
 Collapsing the changed line ranges of a diff before they are attributed to
 symbols. Ranges are half open; two ranges that touch are joined.
 */
module MergeRanges {

  import opened Sorting

  datatype LineRange = LineRange(start: int, end: int)

  /** The order of the `sort.Slice` call: by start, then by end. */
  predicate RangeLe(a: LineRange, b: LineRange) {
    if a.start != b.start then a.start < b.start else a.end <= b.end
  }

  lemma RangeLeIsTotal()
    ensures TotalOrder(RangeLe)
  {
  }

  function SortRanges(rs: seq<LineRange>): (r: seq<LineRange>)
    ensures SortedBy(RangeLe, r)
    ensures multiset(r) == multiset(rs)
    ensures |r| == |rs|
  {
    RangeLeIsTotal();
    Sort(RangeLe, rs)
  }

  /** Line `l` is in one of the ranges. */
  ghost predicate Covers(rs: seq<LineRange>, l: int) {
    exists i :: 0 <= i < |rs| && rs[i].start <= l < rs[i].end
  }

  ghost predicate SameCover(a: seq<LineRange>, b: seq<LineRange>) {
    forall l :: Covers(a, l) <==> Covers(b, l)
  }

  /** Ascending, with at least one uncovered line between one range and the next. */
  ghost predicate Separated(rs: seq<LineRange>) {
    && SortedBy(RangeLe, rs)
    && forall i, j :: 0 <= i < j < |rs| ==> rs[i].end < rs[j].start
  }

  predicate NonEmpty(rs: seq<LineRange>) {
    forall i :: 0 <= i < |rs| ==> rs[i].start < rs[i].end
  }

  /** One range added to a collapsed prefix: it extends the last range it touches, or starts a new one. */
  function Absorb(out: seq<LineRange>, r: LineRange): seq<LineRange> {
    if out == [] || r.start > out[|out| - 1].end then out + [r]
    else if r.end > out[|out| - 1].end then
      out[..|out| - 1] + [LineRange(out[|out| - 1].start, r.end)]
    else out
  }

  function Collapse(rs: seq<LineRange>): seq<LineRange> {
    if rs == [] then [] else Absorb(Collapse(rs[..|rs| - 1]), rs[|rs| - 1])
  }

  /** What the merge returns. */
  function Merged(rs: seq<LineRange>): seq<LineRange> {
    if |rs| <= 1 then rs else Collapse(SortRanges(rs))
  }

  // ---------------------------------------------------------------- One range more

  lemma AbsorbKeepsSeparated(out: seq<LineRange>, r: LineRange)
    requires Separated(out)
    requires forall i :: 0 <= i < |out| ==> out[i].start <= r.start
    requires out != [] ==> out[|out| - 1].end < out[|out| - 1].start ==> RangeLe(out[|out| - 1], r)
    ensures Separated(Absorb(out, r))
    ensures Absorb(out, r) != []
    ensures forall i :: 0 <= i < |Absorb(out, r)| ==> Absorb(out, r)[i].start <= r.start
    ensures var n := |Absorb(out, r)| - 1;
            Absorb(out, r)[n] == r || Absorb(out, r)[n].start <= Absorb(out, r)[n].end
  {
    if out != [] {
      var init, last := out[..|out| - 1], out[|out| - 1];
      if r.start > last.end {
        AppendKeepsSeparated(out, r);
      } else if r.end > last.end {
        AppendKeepsSeparated(init, LineRange(last.start, r.end));
      }
    }
  }

  lemma AppendKeepsSeparated(out: seq<LineRange>, r: LineRange)
    requires Separated(out)
    requires forall i :: 0 <= i < |out| ==> out[i].end < r.start && RangeLe(out[i], r)
    ensures Separated(out + [r])
  {
  }

  lemma CoversLast(rs: seq<LineRange>, r: LineRange, l: int)
    ensures Covers(rs + [r], l) <==> Covers(rs, l) || r.start <= l < r.end
  {
    if Covers(rs, l) {
      var i :| 0 <= i < |rs| && rs[i].start <= l < rs[i].end;
      assert (rs + [r])[i] == rs[i];
    }
    assert (rs + [r])[|rs|] == r;
  }

  lemma AbsorbCovers(out: seq<LineRange>, r: LineRange, l: int)
    requires out != [] ==> out[|out| - 1].start <= r.start
    ensures Covers(Absorb(out, r), l) <==> Covers(out, l) || r.start <= l < r.end
  {
    CoversLast(out, r, l);
    if out != [] {
      var init, last := out[..|out| - 1], out[|out| - 1];
      assert out == init + [last];
      CoversLast(init, last, l);
      CoversLast(init, LineRange(last.start, r.end), l);
    }
  }

  // ---------------------------------------------------------------- The whole pass

  lemma {:induction false} CollapseIsSeparated(rs: seq<LineRange>)
    requires SortedBy(RangeLe, rs)
    ensures Separated(Collapse(rs))
    ensures rs != [] ==> Collapse(rs) != []
    ensures forall i :: 0 <= i < |Collapse(rs)| ==> Collapse(rs)[i].start <= rs[|rs| - 1].start
    ensures rs != [] ==> var last := Collapse(rs)[|Collapse(rs)| - 1];
                         last == rs[|rs| - 1] || last.start <= last.end
  {
    if rs != [] {
      CollapseIsSeparated(rs[..|rs| - 1]);
      AbsorbKeepsSeparated(Collapse(rs[..|rs| - 1]), rs[|rs| - 1]);
    }
  }

  lemma {:induction false} CollapseCovers(rs: seq<LineRange>, l: int)
    requires SortedBy(RangeLe, rs)
    ensures Covers(Collapse(rs), l) <==> Covers(rs, l)
  {
    if rs != [] {
      var init, last := rs[..|rs| - 1], rs[|rs| - 1];
      assert rs == init + [last];
      CollapseCovers(init, l);
      CollapseIsSeparated(init);
      AbsorbCovers(Collapse(init), last, l);
      CoversLast(init, last, l);
    }
  }

  lemma PermutationCovers(a: seq<LineRange>, b: seq<LineRange>, l: int)
    requires multiset(a) == multiset(b)
    requires Covers(a, l)
    ensures Covers(b, l)
  {
    var i :| 0 <= i < |a| && a[i].start <= l < a[i].end;
    SameElements(a, b);
    assert a[i] in b;
  }

  // ---------------------------------------------------------------- Main results

  /** Merging loses no line and adds none, empty and inverted ranges included. */
  lemma MergedCoversTheSameLines(rs: seq<LineRange>)
    ensures SameCover(Merged(rs), rs)
  {
    if |rs| > 1 {
      var sorted := SortRanges(rs);
      forall l ensures Covers(Merged(rs), l) <==> Covers(rs, l) {
        CollapseCovers(sorted, l);
        if Covers(rs, l) { PermutationCovers(rs, sorted, l); }
        if Covers(sorted, l) { PermutationCovers(sorted, rs, l); }
      }
    }
  }

  /** The result is ascending and no two of its ranges touch. */
  lemma MergedIsSeparated(rs: seq<LineRange>)
    ensures Separated(Merged(rs))
  {
    if |rs| > 1 { CollapseIsSeparated(SortRanges(rs)); }
  }

  /** The order in which the hunks arrive does not matter. */
  lemma MergedOfPermutation(a: seq<LineRange>, b: seq<LineRange>)
    requires multiset(a) == multiset(b)
    ensures Merged(a) == Merged(b)
  {
    SameElements(a, b);
    RangeLeIsTotal();
    SortOfPermutation(RangeLe, a, b);
    if |a| == 1 { assert a[0] in b; }
  }

  lemma {:induction false} CollapseOfSeparated(rs: seq<LineRange>)
    requires Separated(rs)
    ensures Collapse(rs) == rs
  {
    if rs != [] {
      CollapseOfSeparated(rs[..|rs| - 1]);
      assert rs == rs[..|rs| - 1] + [rs[|rs| - 1]];
    }
  }

  /** Exactly the separated lists are left alone; in particular merging again changes nothing. */
  lemma MergedIsFixedIff(rs: seq<LineRange>)
    ensures Merged(rs) == rs <==> Separated(rs)
    ensures Merged(Merged(rs)) == Merged(rs)
  {
    MergedIsSeparated(rs);
    SeparatedIsFixed(Merged(rs));
    if Separated(rs) { SeparatedIsFixed(rs); }
  }

  lemma SeparatedIsFixed(rs: seq<LineRange>)
    requires Separated(rs)
    ensures Merged(rs) == rs
  {
    RangeLeIsTotal();
    SortedIsUnique(RangeLe, SortRanges(rs), rs);
    CollapseOfSeparated(rs);
  }

  // ---------------------------------------------------------------- The normal form is unique

  lemma AbsorbKeepsNonEmpty(out: seq<LineRange>, r: LineRange)
    requires NonEmpty(out) && r.start < r.end
    ensures NonEmpty(Absorb(out, r))
  {
  }

  lemma {:induction false} CollapseKeepsNonEmpty(rs: seq<LineRange>)
    requires NonEmpty(rs)
    ensures NonEmpty(Collapse(rs))
  {
    if rs != [] {
      CollapseKeepsNonEmpty(rs[..|rs| - 1]);
      AbsorbKeepsNonEmpty(Collapse(rs[..|rs| - 1]), rs[|rs| - 1]);
    }
  }

  lemma MergedKeepsNonEmpty(rs: seq<LineRange>)
    requires NonEmpty(rs)
    ensures NonEmpty(Merged(rs))
  {
    if |rs| > 1 {
      var sorted := SortRanges(rs);
      SameElements(rs, sorted);
      forall i | 0 <= i < |sorted| ensures sorted[i].start < sorted[i].end { assert sorted[i] in rs; }
      CollapseKeepsNonEmpty(sorted);
    }
  }

  lemma TailCovers(rs: seq<LineRange>, l: int)
    requires rs != [] && Separated(rs)
    ensures Covers(rs[1..], l) <==> Covers(rs, l) && l > rs[0].end
  {
    if Covers(rs, l) && l > rs[0].end {
      var i :| 0 <= i < |rs| && rs[i].start <= l < rs[i].end;
      assert rs[1..][i - 1] == rs[i];
    }
    if Covers(rs[1..], l) {
      var i :| 0 <= i < |rs[1..]| && rs[1..][i].start <= l < rs[1..][i].end;
      assert rs[i + 1] == rs[1..][i];
    }
  }

  /** What the first range of one list says about the first range of another with the same lines. */
  lemma FirstRangeFits(a: seq<LineRange>, b: seq<LineRange>)
    requires a != [] && Separated(a) && NonEmpty(a) && Separated(b) && NonEmpty(b)
    requires SameCover(a, b)
    ensures b != [] && b[0].start <= a[0].start
    ensures b[0].start == a[0].start ==> b[0].end <= a[0].end
  {
    assert Covers(a, a[0].start);
    assert Covers(b, a[0].start);
    assert !Covers(a, a[0].end);
    assert !Covers(b, a[0].end);
  }

  lemma SameTailCover(a: seq<LineRange>, b: seq<LineRange>)
    requires a != [] && Separated(a) && b != [] && Separated(b)
    requires a[0] == b[0] && SameCover(a, b)
    ensures SameCover(a[1..], b[1..])
  {
    forall l ensures Covers(a[1..], l) <==> Covers(b[1..], l) {
      TailCovers(a, l);
      TailCovers(b, l);
    }
  }

  lemma SeparatedTail(rs: seq<LineRange>)
    requires rs != [] && Separated(rs) && NonEmpty(rs)
    ensures Separated(rs[1..]) && NonEmpty(rs[1..])
  {
  }

  lemma {:induction false} SeparatedIsUnique(a: seq<LineRange>, b: seq<LineRange>)
    requires Separated(a) && NonEmpty(a) && Separated(b) && NonEmpty(b)
    requires SameCover(a, b)
    ensures a == b
  {
    hide Separated, NonEmpty, Covers;
    if a == [] {
      if b != [] { FirstRangeFits(b, a); }
    } else {
      FirstRangeFits(a, b);
      FirstRangeFits(b, a);
      SameTailCover(a, b);
      SeparatedTail(a);
      SeparatedTail(b);
      SeparatedIsUnique(a[1..], b[1..]);
      assert a == [a[0]] + a[1..] && b == [b[0]] + b[1..];
    }
  }

  /** On non-empty ranges the merge is the one list of non-empty separated ranges with the same lines. */
  lemma MergedIsTheNormalForm(rs: seq<LineRange>, out: seq<LineRange>)
    requires NonEmpty(rs)
    ensures out == Merged(rs) <==> Separated(out) && NonEmpty(out) && SameCover(out, rs)
  {
    MergedIsSeparated(rs);
    MergedKeepsNonEmpty(rs);
    MergedCoversTheSameLines(rs);
    if Separated(out) && NonEmpty(out) && SameCover(out, rs) {
      SeparatedIsUnique(out, Merged(rs));
    }
  }

  // ---------------------------------------------------------------- The code

  lemma CollapseStep(rs: seq<LineRange>, i: nat)
    requires i < |rs|
    ensures Collapse(rs[..i + 1]) == Absorb(Collapse(rs[..i]), rs[i])
  {
    assert rs[..i + 1][..i] == rs[..i];
  }

  /** By start, and at equal starts by end. */
  ghost predicate Ascending(rs: seq<LineRange>) {
    forall i, j :: 0 <= i < j < |rs| ==> rs[i].start < rs[j].start || (rs[i].start == rs[j].start && rs[i].end <= rs[j].end)
  }

  lemma SortedAscends(rs: seq<LineRange>)
    ensures Ascending(SortRanges(rs)) && multiset(SortRanges(rs)) == multiset(rs)
    ensures |rs| <= 1 ==> Ascending(rs)
  {
    var s := SortRanges(rs);
    assert forall i, j :: 0 <= i < j < |s| ==> RangeLe(s[i], s[j]);
  }

  /** The `sort.Slice` call. */
  method SortInPlace(rs: array<LineRange>)
    modifies rs
    ensures rs[..] == SortRanges(old(rs[..]))
  {
    var sorted := SortRanges(rs[..]);
    forall i | 0 <= i < rs.Length { rs[i] := sorted[i]; }
    assert rs[..] == sorted;
  }

  /** The loop over the sorted ranges. */
  method CollapseAll(rs: array<LineRange>) returns (out: seq<LineRange>)
    requires rs.Length > 0
    ensures out == Collapse(rs[..])
  {
    ghost var sorted := rs[..];
    out := [rs[0]];
    assert Collapse(sorted[..1]) == out by { CollapseStep(sorted, 0); assert sorted[..0] == []; }
    var i := 1;
    while i < rs.Length
      invariant 1 <= i <= rs.Length
      invariant out == Collapse(sorted[..i]) && out != []
    {
      CollapseStep(sorted, i);
      var r := rs[i];
      var n := |out| - 1;
      if r.start <= out[n].end {
        if r.end > out[n].end {
          out := out[n := out[n].(end := r.end)];
        }
      } else {
        out := out + [r];
      }
      i := i + 1;
    }
    assert sorted[..i] == sorted;
  }

  /**
   Sorts the caller's slice in place and returns the collapsed ranges; a slice of
   at most one range is returned as it is.
   */
  method MergeRanges(rs: array<LineRange>) returns (out: seq<LineRange>)
    modifies rs
    ensures out == Merged(old(rs[..]))
    ensures rs[..] == if rs.Length <= 1 then old(rs[..]) else SortRanges(old(rs[..]))
    ensures multiset(rs[..]) == multiset(old(rs[..])) && Ascending(rs[..])
    ensures Separated(out) && SameCover(out, old(rs[..]))
  {
    hide Ascending, Separated, SameCover, Collapse, SortRanges;
    SortedAscends(rs[..]);
    MergedIsSeparated(rs[..]);
    MergedCoversTheSameLines(rs[..]);
    if rs.Length <= 1 { return rs[..]; }
    SortInPlace(rs);
    out := CollapseAll(rs);
  }
}
