/**
 Sorting as the repository uses it: `sort.Strings` and `sort.Slice` with a
 comparison of keys. A sorted permutation under a total order is unique, which is
 what makes every result below independent of Go's map iteration order.
 */
module Sorting {

  ghost predicate TotalPreorder<T(!new)>(le: (T, T) -> bool) {
    && (forall x, y :: le(x, y) || le(y, x))
    && (forall x, y, z :: le(x, y) && le(y, z) ==> le(x, z))
  }

  ghost predicate TotalOrder<T(!new)>(le: (T, T) -> bool) {
    && TotalPreorder(le)
    && (forall x, y :: le(x, y) && le(y, x) ==> x == y)
  }

  ghost predicate SortedBy<T(!new)>(le: (T, T) -> bool, s: seq<T>) {
    forall i, j :: 0 <= i < j < |s| ==> le(s[i], s[j])
  }

  function Insert<T(!new)>(le: (T, T) -> bool, x: T, s: seq<T>): (r: seq<T>)
    requires TotalPreorder(le)
    requires SortedBy(le, s)
    ensures SortedBy(le, r)
    ensures multiset(r) == multiset{x} + multiset(s)
  {
    if s == [] then [x]
    else if le(x, s[0]) then
      assert forall j :: 0 <= j < |s| ==> le(s[0], s[j]) by {
        assert le(s[0], s[0]);
      }
      [x] + s
    else
      assert s == [s[0]] + s[1..];
      var r := Insert(le, x, s[1..]);
      assert forall j :: 0 <= j < |r| ==> le(s[0], r[j]) by {
        forall j | 0 <= j < |r| ensures le(s[0], r[j]) {
          assert r[j] in multiset(r);
        }
      }
      [s[0]] + r
  }

  /** The sorted permutation of `s`. */
  function Sort<T(!new)>(le: (T, T) -> bool, s: seq<T>): (r: seq<T>)
    requires TotalPreorder(le)
    ensures SortedBy(le, r)
    ensures multiset(r) == multiset(s)
    ensures |r| == |s|
  {
    if s == [] then []
    else
      assert s == [s[0]] + s[1..];
      var r := Insert(le, s[0], Sort(le, s[1..]));
      assert |multiset(r)| == |multiset(s)|;
      r
  }

  lemma TailOf<T>(a: seq<T>)
    requires a != []
    ensures a == [a[0]] + a[1..] && multiset(a[1..]) == multiset(a) - multiset{a[0]}
  {
    assert a == [a[0]] + a[1..];
  }

  lemma FirstIsLeast<T(!new)>(le: (T, T) -> bool, a: seq<T>, b: seq<T>)
    requires TotalOrder(le) && SortedBy(le, a)
    requires multiset(a) == multiset(b) && a != [] && b != []
    ensures le(a[0], b[0])
  {
    assert b[0] in multiset(a);
    var j :| 0 <= j < |a| && a[j] == b[0];
    assert le(a[0], a[0]);
  }

  /** A sorted sequence is determined by its elements. */
  lemma {:induction false} SortedIsUnique<T(!new)>(le: (T, T) -> bool, a: seq<T>, b: seq<T>)
    requires TotalOrder(le)
    requires SortedBy(le, a) && SortedBy(le, b)
    requires multiset(a) == multiset(b)
    ensures a == b
  {
    if a == [] {
      assert |multiset(b)| == 0;
    } else {
      assert |multiset(a)| == |multiset(b)|;
      FirstIsLeast(le, a, b);
      FirstIsLeast(le, b, a);
      assert a[0] == b[0];
      TailOf(a);
      TailOf(b);
      SortedIsUnique(le, a[1..], b[1..]);
    }
  }

  /** Sorting does not depend on the order of its input. */
  lemma SortOfPermutation<T(!new)>(le: (T, T) -> bool, a: seq<T>, b: seq<T>)
    requires TotalOrder(le)
    requires multiset(a) == multiset(b)
    ensures Sort(le, a) == Sort(le, b)
  {
    SortedIsUnique(le, Sort(le, a), Sort(le, b));
  }

  /** Elements of a sequence and of a permutation of it are the same. */
  lemma SameElements<T>(a: seq<T>, b: seq<T>)
    requires multiset(a) == multiset(b)
    ensures forall x :: x in a <==> x in b
    ensures |a| == |b|
  {
    forall x ensures x in a <==> x in b {
      assert x in a <==> x in multiset(a);
      assert x in b <==> x in multiset(b);
    }
    assert |multiset(a)| == |multiset(b)|;
  }

  /** A permutation's counterpart of the first element, and what is left when both are taken out. */
  lemma TakeFirst<T>(a: seq<T>, b: seq<T>) returns (i: nat)
    requires a != [] && multiset(a) == multiset(b)
    ensures i < |b| && b[i] == a[0]
    ensures multiset(a[1..]) == multiset(b[..i] + b[i + 1..])
    ensures a == [a[0]] + a[1..] && b == b[..i] + ([a[0]] + b[i + 1..])
  {
    assert a[0] in multiset(b);
    i :| 0 <= i < |b| && b[i] == a[0];
    assert a == [a[0]] + a[1..];
    assert b == b[..i] + ([a[0]] + b[i + 1..]);
    MiddleElement(b[..i], a[0], b[i + 1..]);
    MiddleElement([], a[0], a[1..]);
    assert [] + ([a[0]] + a[1..]) == a && [] + a[1..] == a[1..];
  }

  lemma MiddleElement<T>(u: seq<T>, x: T, v: seq<T>)
    ensures multiset(u + v) == multiset(u + ([x] + v)) - multiset{x}
  {
    assert multiset(u + ([x] + v)) == multiset(u) + (multiset{x} + multiset(v));
  }

  ghost predicate Distinct<T(!new)>(s: seq<T>) {
    forall i, j :: 0 <= i < j < |s| ==> s[i] != s[j]
  }

  lemma DistinctInit<T(!new)>(s: seq<T>)
    requires Distinct(s) && s != []
    ensures Distinct(s[..|s| - 1]) && s[|s| - 1] !in s[..|s| - 1]
  {
  }

  lemma {:induction false} DistinctMultiset<T(!new)>(s: seq<T>)
    ensures Distinct(s) <==> forall x :: x in multiset(s) ==> multiset(s)[x] == 1
  {
    if s != [] {
      assert s == [s[0]] + s[1..];
      DistinctMultiset(s[1..]);
      assert forall i :: 0 <= i < |s| - 1 ==> s[1..][i] == s[i + 1];
      if Distinct(s) {
        assert s[0] !in s[1..];
        assert Distinct(s[1..]);
      } else if Distinct(s[1..]) {
        assert s[0] in s[1..] by {
          var i, j :| 0 <= i < j < |s| && s[i] == s[j];
          assert i == 0;
          assert s[j] == s[1..][j - 1];
        }
        assert multiset(s)[s[0]] >= 2;
      } else {
        var x :| x in multiset(s[1..]) && multiset(s[1..])[x] != 1;
        assert multiset(s)[x] >= 2;
      }
    }
  }

  /** Two enumerations of one set are permutations of each other. */
  lemma EnumerationsPermute<T(!new)>(a: seq<T>, b: seq<T>)
    requires Distinct(a) && Distinct(b)
    requires forall x :: x in a <==> x in b
    ensures multiset(a) == multiset(b)
  {
    DistinctMultiset(a);
    DistinctMultiset(b);
    forall x ensures multiset(a)[x] == multiset(b)[x] {
      assert x in a <==> x in multiset(a);
      assert x in b <==> x in multiset(b);
    }
  }

  lemma DistinctPermutation<T(!new)>(a: seq<T>, b: seq<T>)
    requires Distinct(a)
    requires multiset(a) == multiset(b)
    ensures Distinct(b)
  {
    DistinctMultiset(a);
    DistinctMultiset(b);
  }

  /** Go's `<=` on strings: lexicographic. */
  predicate StringLe(a: string, b: string) {
    if a == [] then true
    else if b == [] then false
    else a[0] < b[0] || (a[0] == b[0] && StringLe(a[1..], b[1..]))
  }

  /** `a` comes before `b`: at the first place they differ its character is smaller, or `b` goes on where it ends. */
  ghost predicate LessText(a: string, b: string) {
    (a <= b && |a| < |b|) || exists i: nat :: DifferAt(a, b, i)
  }

  ghost predicate DifferAt(a: string, b: string, i: nat) {
    i < |a| && i < |b| && a[..i] == b[..i] && a[i] < b[i]
  }

  lemma DifferLater(a: string, b: string, i: nat)
    requires a != [] && b != [] && a[0] == b[0]
    ensures DifferAt(a, b, i + 1) <==> DifferAt(a[1..], b[1..], i)
  {
    if i + 1 < |a| && i + 1 < |b| {
      assert a[..i + 1] == [a[0]] + a[1..][..i];
      assert b[..i + 1] == [b[0]] + b[1..][..i];
      assert a[1..][..i] == a[..i + 1][1..] && b[1..][..i] == b[..i + 1][1..];
    }
  }

  lemma {:induction false} StringLeIff(a: string, b: string)
    ensures StringLe(a, b) <==> a == b || LessText(a, b)
  {
    if a != [] && b != [] {
      assert a == [a[0]] + a[1..] && b == [b[0]] + b[1..];
      if a[0] == b[0] {
        StringLeIff(a[1..], b[1..]);
        hide DifferAt;
        if i: nat :| DifferAt(a, b, i) {
          assert i > 0 by { FirstDiffers(a, b, i); }
          DifferLater(a, b, i - 1);
        }
        if i: nat :| DifferAt(a[1..], b[1..], i) { DifferLater(a, b, i); }
      } else {
        DifferFirst(a, b);
      }
    }
  }

  lemma FirstDiffers(a: string, b: string, i: nat)
    requires DifferAt(a, b, i) && a[0] == b[0]
    ensures i > 0
  {
  }

  lemma DifferFirst(a: string, b: string)
    requires a != [] && b != [] && a[0] != b[0]
    ensures LessText(a, b) <==> a[0] < b[0]
  {
    if a[0] < b[0] { assert DifferAt(a, b, 0); }
    if i: nat :| DifferAt(a, b, i) { assert i > 0 ==> a[..i][0] == b[..i][0]; }
  }

  lemma {:induction false} StringLeTotal(a: string, b: string)
    ensures StringLe(a, b) || StringLe(b, a)
    ensures StringLe(a, b) && StringLe(b, a) ==> a == b
  {
    if a != [] && b != [] {
      StringLeTotal(a[1..], b[1..]);
      assert a == [a[0]] + a[1..] && b == [b[0]] + b[1..];
    }
  }

  lemma {:induction false} StringLeTransitive(a: string, b: string, c: string)
    requires StringLe(a, b) && StringLe(b, c)
    ensures StringLe(a, c)
  {
    if a != [] && b[0] == a[0] && c[0] == b[0] {
      StringLeTransitive(a[1..], b[1..], c[1..]);
    }
  }

  lemma StringLeIsTotalOrder()
    ensures TotalOrder(StringLe)
  {
    forall a, b ensures StringLe(a, b) || StringLe(b, a) { StringLeTotal(a, b); }
    forall a, b | StringLe(a, b) && StringLe(b, a) ensures a == b { StringLeTotal(a, b); }
    forall a, b, c | StringLe(a, b) && StringLe(b, c) ensures StringLe(a, c) {
      StringLeTransitive(a, b, c);
    }
  }

  /** `sort.Strings`. */
  function SortStrings(s: seq<string>): (r: seq<string>)
    ensures SortedBy(StringLe, r)
    ensures multiset(r) == multiset(s)
    ensures |r| == |s|
  {
    StringLeIsTotalOrder();
    Sort(StringLe, s)
  }

  /** The elements of a set in some order, as one `range` over a Go map yields its keys. */
  method SetToSeq<T(!new, ==)>(s: set<T>) returns (r: seq<T>)
    ensures Distinct(r)
    ensures forall x :: x in r <==> x in s
    ensures |r| == |s|
  {
    r := [];
    var todo := s;
    while todo != {}
      invariant todo <= s
      invariant Distinct(r)
      invariant forall x :: x in r <==> x in s - todo
      invariant |r| == |s| - |todo|
      decreases todo
    {
      var x :| x in todo;
      assert forall i :: 0 <= i < |r| ==> r[i] in r;
      todo := todo - {x};
      r := r + [x];
    }
  }
}
