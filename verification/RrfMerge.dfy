/** Reciprocal rank fusion of ranked channels (`internal/hybrid/merge.go`), over the reals. */
module RrfMerge {
  import opened Sorting

  const DEFAULT_RRF_K: int := 60

  datatype Hit = Hit(id: string, score: real, channel: string, chunk: string)

  /** One occurrence: a hit and its zero-based rank in its channel. */
  datatype Ranked = Ranked(rank: nat, hit: Hit)

  function Term(k: int, rank: nat): (t: real)
    requires k > 0
    ensures t > 0.0
  {
    1.0 / (k + rank + 1) as real
  }

  /** A channel's occurrences, best rank first. */
  function Occurrences(list: seq<Hit>): (r: seq<Ranked>)
    ensures |r| == |list| && forall i :: 0 <= i < |r| ==> r[i] == Ranked(i, list[i])
  {
    seq(|list|, i requires 0 <= i < |list| => Ranked(i, list[i]))
  }

  /** All occurrences in the order the code meets them. */
  function Flatten(channels: seq<seq<Hit>>): seq<Ranked> {
    if channels == [] then [] else Flatten(channels[..|channels| - 1]) + Occurrences(channels[|channels| - 1])
  }

  /** The fused score of an id: the sum of 1/(k+rank) over its occurrences, ranks counted from one. */
  function Score(occ: seq<Ranked>, k: int, id: string): real
    requires k > 0
  {
    if occ == [] then 0.0
    else
      var o := occ[|occ| - 1];
      Score(occ[..|occ| - 1], k, id) + if o.hit.id == id then Term(k, o.rank) else 0.0
  }

  predicate Occurs(occ: seq<Ranked>, id: string) {
    exists i :: 0 <= i < |occ| && occ[i].hit.id == id
  }

  /** The hit of an id's first occurrence, whose payload the merged hit carries. */
  function First(occ: seq<Ranked>, id: string): Hit
    requires Occurs(occ, id)
  {
    if occ[0].hit.id == id then occ[0].hit
    else
      assert Occurs(occ[1..], id) by {
        var i :| 0 <= i < |occ| && occ[i].hit.id == id;
        assert occ[1..][i - 1] == occ[i];
      }
      First(occ[1..], id)
  }

  lemma {:induction false} FirstStays(occ: seq<Ranked>, o: Ranked, id: string)
    requires Occurs(occ, id)
    ensures Occurs(occ + [o], id) && First(occ + [o], id) == First(occ, id)
    decreases |occ|
  {
    var i :| 0 <= i < |occ| && occ[i].hit.id == id;
    assert (occ + [o])[i].hit.id == id;
    if occ[0].hit.id != id {
      assert occ[1..][i - 1] == occ[i];
      assert (occ + [o])[1..] == occ[1..] + [o];
      FirstStays(occ[1..], o, id);
    }
  }

  lemma {:induction false} FirstNew(occ: seq<Ranked>, o: Ranked)
    requires !Occurs(occ, o.hit.id)
    ensures Occurs(occ + [o], o.hit.id) && First(occ + [o], o.hit.id) == o.hit
    decreases |occ|
  {
    assert (occ + [o])[|occ|] == o;
    if occ != [] {
      assert (occ + [o])[0] == occ[0];
      assert (occ + [o])[1..] == occ[1..] + [o];
      assert forall i :: 0 <= i < |occ| - 1 ==> occ[1..][i] == occ[i + 1];
      FirstNew(occ[1..], o);
    } else {
      assert occ + [o] == [o];
    }
  }

  // ----- accumulation

  datatype Accum = Accum(rrf: real, hit: Hit)

  /** The map after the occurrences met so far. */
  ghost predicate Accumulated(merged: map<string, Accum>, k: int, occ: seq<Ranked>)
    requires k > 0
  {
    && (forall id :: id in merged <==> Occurs(occ, id))
    && (forall id :: id in merged ==> merged[id] == Accum(Score(occ, k, id), First(occ, id)))
  }

  method AddOccurrence(merged: map<string, Accum>, k: int, o: Ranked, ghost occ: seq<Ranked>) returns (merged': map<string, Accum>)
    requires k > 0 && Accumulated(merged, k, occ)
    ensures Accumulated(merged', k, occ + [o])
  {
    var id := o.hit.id;
    var a := if id in merged then merged[id] else Accum(0.0, o.hit);
    merged' := merged[id := Accum(a.rrf + 1.0 / (k + o.rank + 1) as real, a.hit)];
    OccursSnoc(occ, o);
    forall x | x in merged' ensures merged'[x] == Accum(Score(occ + [o], k, x), First(occ + [o], x)) {
      assert (occ + [o])[..|occ|] == occ;
      if x in merged { FirstStays(occ, o, x); }
      else {
        FirstNew(occ, o);
        ScoreAbsent(occ, k, x);
      }
    }
  }

  lemma OccursSnoc(occ: seq<Ranked>, o: Ranked)
    ensures forall id :: Occurs(occ + [o], id) <==> Occurs(occ, id) || id == o.hit.id
  {
    forall id ensures Occurs(occ + [o], id) <==> Occurs(occ, id) || id == o.hit.id {
      assert (occ + [o])[|occ|] == o;
      if Occurs(occ, id) {
        var i :| 0 <= i < |occ| && occ[i].hit.id == id;
        assert (occ + [o])[i].hit.id == id;
      }
    }
  }

  lemma {:induction false} ScoreAbsent(occ: seq<Ranked>, k: int, id: string)
    requires k > 0 && !Occurs(occ, id)
    ensures Score(occ, k, id) == 0.0
    decreases |occ|
  {
    if occ != [] {
      var n := |occ| - 1;
      assert occ[n].hit.id != id;
      assert forall i :: 0 <= i < n ==> occ[..n][i] == occ[i];
      ScoreAbsent(occ[..n], k, id);
    }
  }

  method Accumulate(channels: seq<seq<Hit>>, k: int) returns (merged: map<string, Accum>)
    requires k > 0
    ensures Accumulated(merged, k, Flatten(channels))
  {
    hide Accumulated, Occurrences;
    merged := map[];
    assert Accumulated(merged, k, []) by { NothingAccumulated(k); }
    for c := 0 to |channels|
      invariant Accumulated(merged, k, Flatten(channels[..c]))
    {
      assert channels[..c + 1][..c] == channels[..c];
      var list := channels[c];
      assert Flatten(channels[..c]) + Occurrences(list)[..0] == Flatten(channels[..c]);
      for rank := 0 to |list|
        invariant Accumulated(merged, k, Flatten(channels[..c]) + Occurrences(list)[..rank])
      {
        ghost var occ := Flatten(channels[..c]) + Occurrences(list)[..rank];
        merged := AddOccurrence(merged, k, Ranked(rank, list[rank]), occ);
        OccurrenceAt(list, rank);
        assert occ + [Ranked(rank, list[rank])] == Flatten(channels[..c]) + Occurrences(list)[..rank + 1];
      }
      OccurrencesSize(list);
      assert Occurrences(list)[..|list|] == Occurrences(list);
    }
    assert channels[..|channels|] == channels;
  }

  lemma NothingAccumulated(k: int)
    requires k > 0
    ensures Accumulated(map[], k, [])
  {
  }

  lemma OccurrencesSize(list: seq<Hit>)
    ensures |Occurrences(list)| == |list|
  {
  }

  lemma OccurrenceAt(list: seq<Hit>, i: nat)
    requires i < |list|
    ensures |Occurrences(list)| == |list| && Occurrences(list)[i] == Ranked(i, list[i])
  {
  }

  // ----- ranking

  /** Higher score first, and among equal scores the smaller id. */
  predicate HitLe(x: Hit, y: Hit) {
    x.score > y.score || (x.score == y.score && StringLe(x.id, y.id))
  }

  lemma HitLeIsTotal()
    ensures TotalPreorder(HitLe)
    ensures forall x, y :: HitLe(x, y) && HitLe(y, x) ==> x.score == y.score && x.id == y.id
  {
    StringLeIsTotalOrder();
  }

  /** The merged hit of an id. */
  function Merged(occ: seq<Ranked>, k: int, id: string): Hit
    requires k > 0 && Occurs(occ, id)
  {
    Hit(id, Score(occ, k, id), "rrf", First(occ, id).chunk)
  }

  /** `all` holds the merged hit of every id once, best first. */
  ghost predicate Ranking(occ: seq<Ranked>, k: int, all: seq<Hit>)
    requires k > 0
  {
    && (forall i :: 0 <= i < |all| ==> Occurs(occ, all[i].id) && all[i] == Merged(occ, k, all[i].id))
    && (forall id :: Occurs(occ, id) ==> exists i :: 0 <= i < |all| && all[i].id == id)
    && (forall i, j :: 0 <= i < j < |all| ==> all[i].id != all[j].id && HitLe(all[i], all[j]))
  }

  function Damping(k: int): int {
    if k <= 0 then DEFAULT_RRF_K else k
  }

  /** The result is the first `limit` of the ranking; a limit that is not positive keeps it whole. */
  ghost predicate IsMerge(channels: seq<seq<Hit>>, k: int, limit: int, out: seq<Hit>) {
    exists all :: Ranking(Flatten(channels), Damping(k), all) && out == if limit > 0 && |all| > limit then all[..limit] else all
  }

  method Collect(merged: map<string, Accum>) returns (out: seq<Hit>)
    ensures forall h :: h in out <==> h.id in merged && h == Hit(h.id, merged[h.id].rrf, "rrf", merged[h.id].hit.chunk)
    ensures forall i, j :: 0 <= i < j < |out| ==> out[i].id != out[j].id
  {
    var ids := SetToSeq(merged.Keys);
    out := [];
    for i := 0 to |ids|
      invariant |out| == i
      invariant forall j :: 0 <= j < i ==> out[j] == Hit(ids[j], merged[ids[j]].rrf, "rrf", merged[ids[j]].hit.chunk)
    {
      assert ids[i] in ids;
      var a := merged[ids[i]];
      out := out + [a.hit.(id := ids[i], score := a.rrf, channel := "rrf")];
    }
    forall h: Hit | h.id in merged && h == Hit(h.id, merged[h.id].rrf, "rrf", merged[h.id].hit.chunk) ensures h in out {
      var i :| 0 <= i < |ids| && ids[i] == h.id;
      assert out[i] == h;
    }
    forall h | h in out ensures h.id in merged {
      var i :| 0 <= i < |out| && out[i] == h;
      assert ids[i] in ids;
    }
  }

  method RrfMerge(channels: seq<seq<Hit>>, k: int, limit: int) returns (out: seq<Hit>)
    ensures IsMerge(channels, k, limit, out)
  {
    var damping := if k <= 0 then DEFAULT_RRF_K else k;
    var merged := Accumulate(channels, damping);
    var hits := Collect(merged);
    HitLeIsTotal();
    out := Sort(HitLe, hits);
    SortedIsRanking(Flatten(channels), damping, merged, hits, out);
    ghost var all := out;
    if limit > 0 && |out| > limit {
      out := out[..limit];
    }
    assert Ranking(Flatten(channels), Damping(k), all);
  }

  lemma SortedIsRanking(occ: seq<Ranked>, k: int, merged: map<string, Accum>, hits: seq<Hit>, all: seq<Hit>)
    requires k > 0 && Accumulated(merged, k, occ)
    requires forall h :: h in hits <==> h.id in merged && h == Hit(h.id, merged[h.id].rrf, "rrf", merged[h.id].hit.chunk)
    requires forall i, j :: 0 <= i < j < |hits| ==> hits[i].id != hits[j].id
    requires multiset(all) == multiset(hits) && SortedBy(HitLe, all)
    ensures Ranking(occ, k, all)
  {
    hide Occurs, HitLe, First, Score;
    SameElements(all, hits);
    forall i | 0 <= i < |all| ensures Occurs(occ, all[i].id) && all[i] == Merged(occ, k, all[i].id) {
      assert all[i] in all;
    }
    forall id | Occurs(occ, id) ensures exists i :: 0 <= i < |all| && all[i].id == id {
      var h := Hit(id, merged[id].rrf, "rrf", merged[id].hit.chunk);
      assert h in all;
    }
    assert Distinct(hits);
    DistinctPermutation(hits, all);
    forall i, j | 0 <= i < j < |all| ensures all[i].id != all[j].id && HitLe(all[i], all[j]) {
      assert all[i] in all && all[j] in all && all[i] != all[j];
    }
  }

  /** The ranking is unique, so the result does not depend on the order in which a map is read. */
  lemma {:induction false} RankingIsUnique(occ: seq<Ranked>, k: int, a: seq<Hit>, b: seq<Hit>, n: nat)
    requires k > 0 && Ranking(occ, k, a) && Ranking(occ, k, b)
    requires n <= |a|
    ensures n <= |b| && a[..n] == b[..n]
    decreases n
  {
    hide HitLe, Score, First, Occurs;
    if n > 0 {
      RankingIsUnique(occ, k, a, b, n - 1);
      var i := PlaceOf(occ, k, a, b, n - 1);
      assert i >= n - 1 by { SamePrefixApart(a, b, n - 1, i); }
      var j := PlaceOf(occ, k, b, a, n - 1);
      assert j >= n - 1 by { SamePrefixApart(b, a, n - 1, j); }
      assert i == n - 1 by { BothFirst(occ, k, a, b, n - 1, i, j); }
      assert a[n - 1] == b[n - 1];
      assert a[..n] == a[..n - 1] + [a[n - 1]] && b[..n] == b[..n - 1] + [b[n - 1]];
    }
  }

  /** Where the other ranking has the id at a place of this one. */
  lemma PlaceOf(occ: seq<Ranked>, k: int, a: seq<Hit>, b: seq<Hit>, n: nat) returns (i: nat)
    requires k > 0 && Ranking(occ, k, a) && Ranking(occ, k, b) && n < |a|
    ensures i < |b| && b[i] == a[n]
  {
    assert Occurs(occ, a[n].id);
    i :| 0 <= i < |b| && b[i].id == a[n].id;
  }

  lemma SamePrefixApart(a: seq<Hit>, b: seq<Hit>, n: nat, i: nat)
    requires n < |a| && n <= |b| && a[..n] == b[..n] && i < |b| && b[i] == a[n]
    requires forall x, y :: 0 <= x < y < |a| ==> a[x].id != a[y].id
    ensures i >= n
  {
    assert forall x :: 0 <= x < n ==> a[..n][x] == a[x] && b[..n][x] == b[x];
  }

  lemma RankedBefore(occ: seq<Ranked>, k: int, a: seq<Hit>, x: nat, y: nat)
    requires k > 0 && Ranking(occ, k, a) && x < y < |a|
    ensures HitLe(a[x], a[y]) && a[x].id != a[y].id
  {
    hide HitLe, Score, First, Occurs;
  }

  /** Two rankings that list each other's document at one place no earlier have the same one there. */
  lemma BothFirst(occ: seq<Ranked>, k: int, a: seq<Hit>, b: seq<Hit>, n: nat, i: nat, j: nat)
    requires k > 0 && Ranking(occ, k, a) && Ranking(occ, k, b)
    requires n < |a| && n < |b| && n <= i < |b| && n <= j < |a| && b[i] == a[n] && a[j] == b[n]
    ensures i == n
  {
    hide Ranking;
    HitLeIsTotal();
    if i > n {
      RankedBefore(occ, k, b, n, i);
      if j > n { RankedBefore(occ, k, a, n, j); }
    }
  }

  lemma MergeIsUnique(channels: seq<seq<Hit>>, k: int, limit: int, out1: seq<Hit>, out2: seq<Hit>)
    requires IsMerge(channels, k, limit, out1) && IsMerge(channels, k, limit, out2)
    ensures out1 == out2
  {
    hide Ranking;
    var occ := Flatten(channels);
    var a: seq<Hit> :| Ranking(occ, Damping(k), a) && out1 == if limit > 0 && |a| > limit then a[..limit] else a;
    var b: seq<Hit> :| Ranking(occ, Damping(k), b) && out2 == if limit > 0 && |b| > limit then b[..limit] else b;
    RankingIsUnique(occ, Damping(k), a, b, |a|);
    RankingIsUnique(occ, Damping(k), b, a, |b|);
    assert a == a[..|a|] == b[..|b|] == b;
  }

  // ----- dominance

  /** A channel with no id twice. */
  ghost predicate UniqueIds(list: seq<Hit>) {
    forall i, j :: 0 <= i < j < |list| ==> list[i].id != list[j].id
  }

  ghost predicate RankedAt(list: seq<Hit>, id: string, r: int) {
    0 <= r < |list| && list[r].id == id
  }

  /** In this channel `a` ranks no worse than `b`: wherever `b` is, `a` is at least as high. */
  ghost predicate NoWorse(list: seq<Hit>, a: string, b: string) {
    forall r :: RankedAt(list, b, r) ==> exists q :: q <= r && RankedAt(list, a, q)
  }

  /** In this channel `a` is listed, and `b` is not or is lower. */
  ghost predicate BetterIn(list: seq<Hit>, a: string, b: string) {
    exists q :: RankedAt(list, a, q) && forall r :: RankedAt(list, b, r) ==> q < r
  }

  lemma {:induction false} ScoreJoin(x: seq<Ranked>, y: seq<Ranked>, k: int, id: string)
    requires k > 0
    ensures Score(x + y, k, id) == Score(x, k, id) + Score(y, k, id)
    decreases |y|
  {
    if y == [] { assert x + y == x; }
    else {
      var n := |y| - 1;
      ScoreJoin(x, y[..n], k, id);
      assert (x + y)[..|x + y| - 1] == x + y[..n];
    }
  }

  /** In a channel without repeats an id's score is one term, or nothing. */
  lemma {:induction false} ChannelScore(list: seq<Hit>, k: int, id: string, n: nat)
    requires k > 0 && UniqueIds(list) && n <= |list|
    ensures forall r :: RankedAt(list, id, r) && r < n ==> Score(Occurrences(list)[..n], k, id) == Term(k, r)
    ensures (forall r :: r < n ==> !RankedAt(list, id, r)) ==> Score(Occurrences(list)[..n], k, id) == 0.0
    decreases n
  {
    hide Term;
    if n > 0 {
      ChannelScore(list, k, id, n - 1);
      var occ := Occurrences(list)[..n];
      assert occ[..n - 1] == Occurrences(list)[..n - 1] && occ[n - 1] == Ranked(n - 1, list[n - 1]);
      if list[n - 1].id == id {
        assert RankedAt(list, id, n - 1);
        assert forall r :: r < n - 1 ==> !RankedAt(list, id, r);
      }
    }
  }

  lemma ChannelScoreOf(list: seq<Hit>, k: int, id: string)
    requires k > 0 && UniqueIds(list)
    ensures forall r :: RankedAt(list, id, r) ==> Score(Occurrences(list), k, id) == Term(k, r)
    ensures (forall r :: !RankedAt(list, id, r)) ==> Score(Occurrences(list), k, id) == 0.0
  {
    ChannelScore(list, k, id, |list|);
    assert Occurrences(list)[..|list|] == Occurrences(list);
  }

  lemma ReciprocalDrops(x: real, y: real)
    requires 0.0 < x < y
    ensures 1.0 / x > 1.0 / y
  {
    var s, t := 1.0 / x, 1.0 / y;
    assert s * x == 1.0 && t * y == 1.0;
    assert t > 0.0;
    assert t * (y - x) > 0.0;
    assert (s - t) * x == t * (y - x);
    assert s - t > 0.0;
  }

  lemma TermDrops(k: int, q: nat, r: nat)
    requires k > 0
    ensures q < r ==> Term(k, q) > Term(k, r)
    ensures q <= r ==> Term(k, q) >= Term(k, r)
  {
    if q < r { ReciprocalDrops((k + q + 1) as real, (k + r + 1) as real); }
  }

  lemma ChannelCompare(list: seq<Hit>, k: int, a: string, b: string)
    requires k > 0 && UniqueIds(list)
    ensures NoWorse(list, a, b) ==> Score(Occurrences(list), k, a) >= Score(Occurrences(list), k, b)
    ensures BetterIn(list, a, b) ==> Score(Occurrences(list), k, a) > Score(Occurrences(list), k, b)
  {
    hide Score, Term;
    ChannelScoreOf(list, k, a);
    ChannelScoreOf(list, k, b);
    if NoWorse(list, a, b) {
      if r :| RankedAt(list, b, r) {
        var q :| q <= r && RankedAt(list, a, q);
        TermDrops(k, q, r);
      } else {
        ScoreNotNegative(Occurrences(list), k, a);
      }
    }
    if BetterIn(list, a, b) {
      var q :| RankedAt(list, a, q) && forall r :: RankedAt(list, b, r) ==> q < r;
      if r :| RankedAt(list, b, r) { TermDrops(k, q, r); }
    }
  }

  lemma {:induction false} ScoreNotNegative(occ: seq<Ranked>, k: int, id: string)
    requires k > 0
    ensures Score(occ, k, id) >= 0.0
    decreases |occ|
  {
    if occ != [] { ScoreNotNegative(occ[..|occ| - 1], k, id); }
  }

  lemma {:induction false} DominanceOfScores(channels: seq<seq<Hit>>, k: int, a: string, b: string)
    requires k > 0
    requires forall c :: 0 <= c < |channels| ==> UniqueIds(channels[c]) && NoWorse(channels[c], a, b)
    ensures Score(Flatten(channels), k, a) >= Score(Flatten(channels), k, b)
    ensures (exists c :: 0 <= c < |channels| && BetterIn(channels[c], a, b)) ==>
      Score(Flatten(channels), k, a) > Score(Flatten(channels), k, b)
    decreases |channels|
  {
    hide Score, UniqueIds, NoWorse, BetterIn;
    if channels != [] {
      var n := |channels| - 1;
      assert forall c :: 0 <= c < n ==> channels[..n][c] == channels[c];
      DominanceOfScores(channels[..n], k, a, b);
      ChannelCompare(channels[n], k, a, b);
      ScoreJoin(Flatten(channels[..n]), Occurrences(channels[n]), k, a);
      ScoreJoin(Flatten(channels[..n]), Occurrences(channels[n]), k, b);
      if c :| 0 <= c < |channels| && BetterIn(channels[c], a, b) {
        if c < n { assert channels[..n][c] == channels[c]; }
      }
    } else {
      NoScore(k, a);
      NoScore(k, b);
    }
  }

  lemma NoScore(k: int, id: string)
    requires k > 0
    ensures Score([], k, id) == 0.0
  {
  }

  /** A document that ranks no worse in every channel and better in one comes strictly first. */
  lemma DominatorComesFirst(channels: seq<seq<Hit>>, k: int, limit: int, out: seq<Hit>, a: string, b: string, j: nat)
    requires IsMerge(channels, k, limit, out)
    requires forall c :: 0 <= c < |channels| ==> UniqueIds(channels[c]) && NoWorse(channels[c], a, b)
    requires exists c :: 0 <= c < |channels| && BetterIn(channels[c], a, b)
    requires j < |out| && out[j].id == b
    ensures exists i :: 0 <= i < j && out[i].id == a && out[i].score > out[j].score
  {
    hide NoWorse, UniqueIds, BetterIn, Ranking;
    var occ := Flatten(channels);
    DominanceOfScores(channels, Damping(k), a, b);
    var all: seq<Hit> :| Ranking(occ, Damping(k), all) && out == if limit > 0 && |all| > limit then all[..limit] else all;
    assert out[j] == all[j];
    var c :| 0 <= c < |channels| && BetterIn(channels[c], a, b);
    BetterOccurs(channels, c, a, b);
    var i := HigherScoreFirst(occ, Damping(k), all, a, j);
    assert out[i] == all[i];
  }

  lemma HigherScoreFirst(occ: seq<Ranked>, k: int, all: seq<Hit>, a: string, j: nat) returns (i: nat)
    requires k > 0 && Ranking(occ, k, all) && j < |all|
    requires Occurs(occ, a) && Score(occ, k, a) > Score(occ, k, all[j].id)
    ensures i < j && all[i].id == a && all[i].score > all[j].score
  {
    hide Occurs, Score, First;
    i :| 0 <= i < |all| && all[i].id == a;
    assert all[i] == Merged(occ, k, a) && all[j] == Merged(occ, k, all[j].id);
    assert forall x :: j < x < |all| ==> HitLe(all[j], all[x]);
  }

  lemma {:induction false} BetterOccurs(channels: seq<seq<Hit>>, c: nat, a: string, b: string)
    requires c < |channels| && BetterIn(channels[c], a, b)
    ensures Occurs(Flatten(channels), a)
    decreases |channels|
  {
    var n := |channels| - 1;
    var before, last := Flatten(channels[..n]), Occurrences(channels[n]);
    if c < n {
      BetterOccurs(channels[..n], c, a, b);
      var i :| 0 <= i < |before| && before[i].hit.id == a;
      assert (before + last)[i] == before[i];
    } else {
      var q :| RankedAt(channels[n], a, q);
      assert (before + last)[|before| + q] == last[q];
    }
  }
}
