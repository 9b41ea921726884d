/** Near-miss suggestions (`suggestNames`): the nearest indexed names, by distance and then by name. */
module SuggestNames {
  import opened Sorting
  import opened EditDistance

  const MAX_SCAN: nat := 10_000
  const THRESHOLD: nat := 2

  datatype Scored = Scored(name: string, score: int)

  predicate ScoredLe(x: Scored, y: Scored) {
    if x.score != y.score then x.score < y.score else StringLe(x.name, y.name)
  }

  lemma ScoredLeIsTotalOrder()
    ensures TotalOrder(ScoredLe)
  {
    StringLeIsTotalOrder();
  }

  /** `x` is suggested no later than `y`: it is closer, or as close and first in string order. */
  ghost predicate Nearer(base: string, x: string, y: string) {
    Lev(base, x) < Lev(base, y) || (Lev(base, x) == Lev(base, y) && (x == y || LessText(x, y)))
  }

  lemma NearerIff(base: string, x: string, y: string)
    ensures ScoredLe(Scored(x, Lev(base, x)), Scored(y, Lev(base, y))) <==> Nearer(base, x, y)
  {
    hide Lev;
    StringLeIff(x, y);
  }

  /** The names among the first ten thousand symbols that are close enough to suggest. */
  ghost predicate Close(base: string, candidates: seq<string>, x: string) {
    x != "" && Lev(base, x) <= 2 && exists i :: 0 <= i < |candidates| && i < 10_000 && candidates[i] == x
  }

  /** `names` are the first `k` close names, nearest first; this determines them. */
  ghost predicate NearestClose(base: string, candidates: seq<string>, k: nat, names: seq<string>) {
    && |names| <= k
    && (forall i, j :: 0 <= i < j < |names| ==> names[i] != names[j] && Nearer(base, names[i], names[j]))
    && (forall i :: 0 <= i < |names| ==> Close(base, candidates, names[i]))
    && (forall x :: Close(base, candidates, x) && x !in names ==>
          |names| == k && forall i :: 0 <= i < |names| ==> Nearer(base, names[i], x))
  }

  /** The close names met so far, each once, with their distances. */
  ghost predicate Collected(base: string, pool: seq<string>, seen: set<string>, out: seq<Scored>) {
    && (forall x :: x in seen <==> x in pool && x != "")
    && Distinct(out)
    && (forall s :: s in out <==> s.name in seen && s.score == Lev(base, s.name) && s.score <= THRESHOLD)
  }

  method Collect(base: string, pool: seq<string>) returns (out: seq<Scored>)
    ensures Distinct(out)
    ensures forall s :: s in out <==> s.name in pool && s.name != "" && s.score == Lev(base, s.name) && s.score <= THRESHOLD
  {
    out := [];
    var seen: set<string> := {};
    for i := 0 to |pool|
      invariant Collected(base, pool[..i], seen, out)
    {
      assert pool[..i + 1] == pool[..i] + [pool[i]];
      var name := pool[i];
      if name == "" || name in seen {
        continue;
      }
      var d := EditDistance.EditDistance(base, name, THRESHOLD);
      seen := seen + {name};
      if d <= THRESHOLD {
        out := out + [Scored(name, d)];
      }
    }
    assert pool[..|pool|] == pool;
  }

  method SuggestNames(base: string, candidates: seq<string>, k: int) returns (names: seq<string>)
    ensures k <= 0 || base == "" ==> names == []
    ensures k > 0 && base != "" ==> NearestClose(base, candidates, k, names)
  {
    if base == "" || k <= 0 {
      return [];
    }
    var pool := if |candidates| > MAX_SCAN then candidates[..MAX_SCAN] else candidates;
    var found := Collect(base, pool);
    ScoredLeIsTotalOrder();
    var out := Sort(ScoredLe, found);
    SameElements(found, out);
    DistinctPermutation(found, out);
    ghost var all := out;
    if |out| > k {
      out := out[..k];
    }
    names := seq(|out|, i requires 0 <= i < |out| => out[i].name);
    FirstAreNearest(base, candidates, pool, k, all, out, names);
  }

  /** Where the sorted list has a close name. */
  lemma CloseIsFound(base: string, candidates: seq<string>, pool: seq<string>, all: seq<Scored>, x: string)
    requires pool == if |candidates| > MAX_SCAN then candidates[..MAX_SCAN] else candidates
    requires forall s :: s in all <==> s.name in pool && s.name != "" && s.score == Lev(base, s.name) && s.score <= THRESHOLD
    ensures Close(base, candidates, x) <==> Scored(x, Lev(base, x)) in all
  {
    hide Lev;
    assert Scored(x, Lev(base, x)).name == x;
    assert x in pool <==> exists i :: 0 <= i < |candidates| && i < MAX_SCAN && candidates[i] == x;
  }

  /** A close name beyond the first `k` comes no sooner than any of them. */
  lemma RestIsFarther(base: string, k: nat, all: seq<Scored>, names: seq<string>, x: string)
    requires SortedBy(ScoredLe, all)
    requires |names| == (if |all| > k then k else |all|)
    requires forall i :: 0 <= i < |names| ==> all[i] == Scored(names[i], Lev(base, names[i]))
    requires Scored(x, Lev(base, x)) in all && x !in names
    ensures |names| == k && forall i :: 0 <= i < |names| ==> Nearer(base, names[i], x)
  {
    hide Lev, ScoredLe, Nearer;
    var j :| 0 <= j < |all| && all[j] == Scored(x, Lev(base, x));
    assert forall i :: 0 <= i < |names| ==> all[i].name == names[i] && names[i] != x;
    forall i | 0 <= i < |names| ensures Nearer(base, names[i], x) {
      assert ScoredLe(all[i], all[j]);
      NearerIff(base, names[i], x);
    }
  }

  lemma FirstAreNearest(base: string, candidates: seq<string>, pool: seq<string>, k: nat, all: seq<Scored>, out: seq<Scored>, names: seq<string>)
    requires pool == if |candidates| > MAX_SCAN then candidates[..MAX_SCAN] else candidates
    requires forall s :: s in all <==> s.name in pool && s.name != "" && s.score == Lev(base, s.name) && s.score <= THRESHOLD
    requires SortedBy(ScoredLe, all) && Distinct(all)
    requires out == if |all| > k then all[..k] else all
    requires |names| == |out| && forall i :: 0 <= i < |names| ==> names[i] == out[i].name
    ensures NearestClose(base, candidates, k, names)
  {
    hide Lev, ScoredLe, Close, Nearer;
    forall i | 0 <= i < |names|
      ensures all[i] == Scored(names[i], Lev(base, names[i])) && Close(base, candidates, names[i])
    {
      assert all[i] in all && out[i] == all[i];
      CloseIsFound(base, candidates, pool, all, names[i]);
    }
    forall i, j | 0 <= i < j < |names| ensures names[i] != names[j] && Nearer(base, names[i], names[j]) {
      assert all[i] != all[j] && ScoredLe(all[i], all[j]);
      NearerIff(base, names[i], names[j]);
    }
    forall x | Close(base, candidates, x) && x !in names
      ensures |names| == k && forall i :: 0 <= i < |names| ==> Nearer(base, names[i], x)
    {
      CloseIsFound(base, candidates, pool, all, x);
      RestIsFarther(base, k, all, names, x);
    }
  }
}
