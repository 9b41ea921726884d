/**
 Bounded edit distance (`internal/tool/helpers.go`): what the two-row dynamic program
 with its shortcuts computes is the least cost of any edit script, cut off one above the
 ceiling. Strings are byte strings, as Go indexes them.
 */
module EditDistance {

  // ----- edit scripts

  datatype Edit = Keep | Substitute(c: char) | Delete | Insert(c: char)

  /** The string a script makes of `a`; a script must use up `a` exactly. */
  function Apply(script: seq<Edit>, a: string): (r: string)
    requires Fits(script, a)
  {
    if script == [] then ""
    else
      var before := script[..|script| - 1];
      match script[|script| - 1]
      case Keep => Apply(before, a[..|a| - 1]) + [a[|a| - 1]]
      case Substitute(c) => Apply(before, a[..|a| - 1]) + [c]
      case Delete => Apply(before, a[..|a| - 1])
      case Insert(c) => Apply(before, a) + [c]
  }

  predicate Fits(script: seq<Edit>, a: string) {
    if script == [] then a == ""
    else
      var before := script[..|script| - 1];
      if script[|script| - 1].Insert? then Fits(before, a)
      else a != "" && Fits(before, a[..|a| - 1])
  }

  /** Keeping a character is free; every other edit costs one. */
  function Cost(script: seq<Edit>): nat {
    if script == [] then 0 else Cost(script[..|script| - 1]) + if script[|script| - 1].Keep? then 0 else 1
  }

  predicate Turns(script: seq<Edit>, a: string, b: string) {
    Fits(script, a) && Apply(script, a) == b
  }

  /** `d` is the least cost of a script that turns `a` into `b`. */
  ghost predicate LeastCost(a: string, b: string, d: nat) {
    && (exists script :: Turns(script, a, b) && Cost(script) == d)
    && (forall script :: Turns(script, a, b) ==> d <= Cost(script))
  }

  // ----- the recurrence

  function Min(x: int, y: int): int {
    if x <= y then x else y
  }

  function Lev(a: string, b: string): nat
    decreases |a| + |b|
  {
    if a == "" then |b|
    else if b == "" then |a|
    else
      var a', b' := a[..|a| - 1], b[..|b| - 1];
      Min(Min(Lev(a', b) + 1, Lev(a, b') + 1), Lev(a', b') + if a[|a| - 1] == b[|b| - 1] then 0 else 1)
  }

  lemma Snoc(script: seq<Edit>, e: Edit)
    ensures (script + [e])[..|script + [e]| - 1] == script
  {
  }

  lemma {:induction false} InsertAll(b: string) returns (script: seq<Edit>)
    ensures Turns(script, "", b) && Cost(script) == |b|
  {
    if b == "" { script := []; }
    else {
      var s := InsertAll(b[..|b| - 1]);
      script := s + [Insert(b[|b| - 1])];
      Snoc(s, Insert(b[|b| - 1]));
    }
  }

  lemma {:induction false} DeleteAll(a: string) returns (script: seq<Edit>)
    ensures Turns(script, a, "") && Cost(script) == |a|
  {
    if a == "" { script := []; }
    else {
      var s := DeleteAll(a[..|a| - 1]);
      script := s + [Delete];
      Snoc(s, Delete);
    }
  }

  /** The recurrence's value is the cost of some script. */
  lemma {:induction false} LevIsReached(a: string, b: string) returns (script: seq<Edit>)
    ensures Turns(script, a, b) && Cost(script) == Lev(a, b)
    decreases |a| + |b|
  {
    if a == "" { script := InsertAll(b); }
    else if b == "" { script := DeleteAll(a); }
    else {
      hide Turns, Cost;
      var a', b' := a[..|a| - 1], b[..|b| - 1];
      if Lev(a, b) == Lev(a', b) + 1 {
        var s := LevIsReached(a', b);
        script := s + [Delete];
        ExtendScript(s, Delete, a', b, a, b);
      } else if Lev(a, b) == Lev(a, b') + 1 {
        var s := LevIsReached(a, b');
        script := s + [Insert(b[|b| - 1])];
        ExtendScript(s, Insert(b[|b| - 1]), a, b', a, b);
      } else {
        var s := LevIsReached(a', b');
        var e := if a[|a| - 1] == b[|b| - 1] then Keep else Substitute(b[|b| - 1]);
        script := s + [e];
        ExtendScript(s, e, a', b', a, b);
      }
    }
  }

  /** One more edit at the end of a script. */
  lemma ExtendScript(s: seq<Edit>, e: Edit, a': string, b': string, a: string, b: string)
    requires Turns(s, a', b')
    requires if e.Insert? then a == a' else a != "" && a' == a[..|a| - 1]
    requires if e.Delete? then b == b' else b != "" && b' == b[..|b| - 1]
    requires e.Keep? ==> a[|a| - 1] == b[|b| - 1]
    requires e.Insert? || e.Substitute? ==> e.c == b[|b| - 1]
    ensures Turns(s + [e], a, b)
    ensures Cost(s + [e]) == Cost(s) + if e.Keep? then 0 else 1
  {
    Snoc(s, e);
    assert !e.Delete? ==> b == b' + [b[|b| - 1]];
  }

  /** No script is cheaper than the recurrence's value. */
  lemma {:induction false} LevIsLeast(script: seq<Edit>, a: string, b: string)
    requires Turns(script, a, b)
    ensures Lev(a, b) <= Cost(script)
  {
    if script != [] {
      var before := script[..|script| - 1];
      match script[|script| - 1]
      case Keep =>
        assert b[..|b| - 1] == Apply(before, a[..|a| - 1]);
        LevIsLeast(before, a[..|a| - 1], b[..|b| - 1]);
      case Substitute(c) =>
        assert b[..|b| - 1] == Apply(before, a[..|a| - 1]);
        LevIsLeast(before, a[..|a| - 1], b[..|b| - 1]);
      case Delete =>
        LevIsLeast(before, a[..|a| - 1], b);
        LevDrop(a, b);
      case Insert(c) =>
        assert b[..|b| - 1] == Apply(before, a);
        LevIsLeast(before, a, b[..|b| - 1]);
        LevDrop(b, a);
        LevSymmetric(a, b);
        LevSymmetric(a, b[..|b| - 1]);
    }
  }

  lemma LevDrop(a: string, b: string)
    requires a != ""
    ensures Lev(a, b) <= Lev(a[..|a| - 1], b) + 1
  {
  }

  lemma {:induction false} LevSymmetric(a: string, b: string)
    ensures Lev(a, b) == Lev(b, a)
    decreases |a| + |b|
  {
    if a != "" && b != "" {
      var a', b' := a[..|a| - 1], b[..|b| - 1];
      LevSymmetric(a', b);
      LevSymmetric(a, b');
      LevSymmetric(a', b');
    }
  }

  lemma LevIsLeastCost(a: string, b: string)
    ensures LeastCost(a, b, Lev(a, b))
  {
    var script := LevIsReached(a, b);
    forall s | Turns(s, a, b) ensures Lev(a, b) <= Cost(s) { LevIsLeast(s, a, b); }
  }

  // ----- why the shortcuts are sound

  lemma {:induction false} LevAtLeastLengthGap(a: string, b: string)
    ensures Lev(a, b) >= |a| - |b| && Lev(a, b) >= |b| - |a|
    decreases |a| + |b|
  {
    if a != "" && b != "" {
      LevAtLeastLengthGap(a[..|a| - 1], b);
      LevAtLeastLengthGap(a, b[..|b| - 1]);
      LevAtLeastLengthGap(a[..|a| - 1], b[..|b| - 1]);
    }
  }

  lemma {:induction false} LevZeroIffEqual(a: string, b: string)
    ensures Lev(a, b) == 0 <==> a == b
    decreases |a| + |b|
  {
    if a != "" && b != "" {
      var a', b' := a[..|a| - 1], b[..|b| - 1];
      LevZeroIffEqual(a', b');
      assert a == a' + [a[|a| - 1]] && b == b' + [b[|b| - 1]];
    }
  }

  /** One cell of the table: the distance between two prefixes. */
  function Cell(a: string, b: string, i: nat, j: nat): nat
    requires i <= |a| && j <= |b|
  {
    Lev(a[..i], b[..j])
  }

  lemma CellRecurrence(a: string, b: string, i: nat, j: nat)
    requires 0 < i <= |a| && 0 < j <= |b|
    ensures Cell(a, b, i, j) ==
      Min(Min(Cell(a, b, i - 1, j) + 1, Cell(a, b, i, j - 1) + 1), Cell(a, b, i - 1, j - 1) + if a[i - 1] == b[j - 1] then 0 else 1)
  {
    assert a[..i][..i - 1] == a[..i - 1] && b[..j][..j - 1] == b[..j - 1];
  }

  /** A row whose cells all exceed a bound is followed only by cells that do. */
  lemma {:induction false} RowsOnlyGrow(a: string, b: string, i: nat, bound: int, i': nat, j: nat)
    requires i <= i' <= |a| && j <= |b|
    requires forall k :: 0 <= k <= |b| ==> Cell(a, b, i, k) > bound
    ensures Cell(a, b, i', j) > bound
    decreases i', j
  {
    if i < i' {
      if j == 0 {
        assert Cell(a, b, i, 0) == i && Cell(a, b, i', 0) == i';
      } else {
        RowsOnlyGrow(a, b, i, bound, i' - 1, j);
        RowsOnlyGrow(a, b, i, bound, i', j - 1);
        RowsOnlyGrow(a, b, i, bound, i' - 1, j - 1);
        CellRecurrence(a, b, i', j);
      }
    }
  }

  // ----- the program

  function AbsInt(x: int): int {
    if x < 0 then -x else x
  }

  /** The distance, or one more than the ceiling when the distance exceeds it. */
  function Capped(d: nat, ceiling: int): int {
    if d > ceiling then ceiling + 1 else d
  }

  /** Fills the row of `a[..i]` in `curr` from the row before it in `prev`, and finds its least cell. */
  method FillRow(a: string, b: string, i: nat, prev: array<int>, curr: array<int>) returns (rowMin: int)
    requires 0 < i <= |a| && prev != curr && prev.Length == curr.Length == |b| + 1
    requires forall j :: 0 <= j <= |b| ==> prev[j] == Cell(a, b, i - 1, j)
    modifies curr
    ensures forall j :: 0 <= j <= |b| ==> curr[j] == Cell(a, b, i, j)
    ensures forall j :: 0 <= j <= |b| ==> rowMin <= curr[j]
    ensures exists j :: 0 <= j <= |b| && rowMin == curr[j]
  {
    hide Cell;
    curr[0] := i;
    assert Cell(a, b, i, 0) == i by { FirstColumn(a, b, i); }
    rowMin := curr[0];
    for j := 1 to |b| + 1
      invariant forall k :: 0 <= k < j ==> curr[k] == Cell(a, b, i, k)
      invariant forall k :: 0 <= k < j ==> rowMin <= curr[k]
      invariant exists k :: 0 <= k < j && rowMin == curr[k]
    {
      var cost := 1;
      if a[i - 1] == b[j - 1] {
        cost := 0;
      }
      var del := prev[j] + 1;
      var ins := curr[j - 1] + 1;
      var sub := prev[j - 1] + cost;
      var v := del;
      if ins < v {
        v := ins;
      }
      if sub < v {
        v := sub;
      }
      CellRecurrence(a, b, i, j);
      curr[j] := v;
      if v < rowMin {
        rowMin := v;
      }
    }
  }

  lemma FirstColumn(a: string, b: string, i: nat)
    requires i <= |a|
    ensures Cell(a, b, i, 0) == i
  {
  }

  /** The two-row table, for a string `b` no longer than `a`. */
  method Table(a: string, b: string, ceiling: int) returns (d: int)
    ensures d == Capped(Lev(a, b), ceiling)
  {
    hide Cell;
    var prev := new int[|b| + 1];
    var curr := new int[|b| + 1];
    for j := 0 to |b| + 1
      invariant forall k :: 0 <= k < j ==> prev[k] == k
    {
      prev[j] := j;
    }
    forall j | 0 <= j <= |b| ensures prev[j] == Cell(a, b, 0, j) { FirstRow(a, b, j); }
    for i := 1 to |a| + 1
      invariant prev != curr && prev.Length == curr.Length == |b| + 1
      invariant fresh(prev) && fresh(curr)
      invariant forall j :: 0 <= j <= |b| ==> prev[j] == Cell(a, b, i - 1, j)
    {
      var rowMin := FillRow(a, b, i, prev, curr);
      if rowMin > ceiling {
        RowsOnlyGrow(a, b, i, ceiling, |a|, |b|);
        LastCell(a, b);
        return ceiling + 1;
      }
      prev, curr := curr, prev;
    }
    LastCell(a, b);
    if prev[|b|] > ceiling {
      return ceiling + 1;
    }
    return prev[|b|];
  }

  lemma FirstRow(a: string, b: string, j: nat)
    requires j <= |b|
    ensures Cell(a, b, 0, j) == j
  {
  }

  lemma LastCell(a: string, b: string)
    ensures Cell(a, b, |a|, |b|) == Lev(a, b)
  {
    assert a[..|a|] == a && b[..|b|] == b;
  }

  method EditDistance(a: string, b: string, ceiling: int) returns (d: int)
    ensures a == b ==> d == 0
    ensures a != b || ceiling >= 0 ==> d == Capped(Lev(a, b), ceiling)
  {
    LevZeroIffEqual(a, b);
    if a == b {
      return 0;
    }
    var la, lb := |a|, |b|;
    if la == 0 {
      return if lb > ceiling then ceiling + 1 else lb;
    }
    if lb == 0 {
      return if la > ceiling then ceiling + 1 else la;
    }
    if AbsInt(la - lb) > ceiling {
      LevAtLeastLengthGap(a, b);
      return ceiling + 1;
    }
    if la < lb {
      LevSymmetric(a, b);
      d := Table(b, a, ceiling);
    } else {
      d := Table(a, b, ceiling);
    }
  }

  /** For a ceiling that is not negative, the result is the least cost of an edit script, or one above the ceiling. */
  lemma CappedLeastCost(a: string, b: string, ceiling: nat, d: int)
    requires d == Capped(Lev(a, b), ceiling)
    ensures d <= ceiling <==> exists script :: Turns(script, a, b) && Cost(script) <= ceiling
    ensures d <= ceiling ==> d >= 0 && LeastCost(a, b, d)
    ensures d > ceiling ==> d == ceiling + 1
  {
    LevIsLeastCost(a, b);
  }
}
