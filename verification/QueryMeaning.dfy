/**
 What an answer of the traversal says in terms of the query alone: its follow list, the edges
 the scanners return, the weights of its seeds and its filters. Step `n` scans the edges of kind
 `follow[n]`, the list being repeated.
 */
module QueryMeaning {
  import opened Wrappers
  import opened GraphWalks
  import opened QueryGraph
  import opened QueryHistory
  import opened QueryTraversal

  /** In step `n` of the run, scanning the `m`-th node of the frontier returns the edge `e`. */
  ghost predicate ScannedAt(q: Query, trace: Trace, n: nat, m: nat, e: Edge)
    requires q.follow != []
  {
    n < |trace| && m < |trace[n]| && e in q.repo.scan(q.follow[n % |q.follow|], trace[n][m].id)
  }

  ghost predicate Scanned(q: Query, trace: Trace, n: nat, t: Id)
    requires q.follow != []
  {
    exists m, e: Edge :: ScannedAt(q, trace, n, m, e) && e.target == t
  }

  predicate IsSeed(q: Query, t: Id) {
    exists j :: 0 <= j < |q.seeds| && q.seeds[j].id == t
  }

  /** An edge the filters let through. */
  predicate Shown(q: Query, e: Edge) {
    && (q.excludeTests ==> |e.file| < 8 || e.file[|e.file| - 8..] != "_test.go")
    && (q.kindFilter == "" || e.targetKind == q.kindFilter)
  }

  /** In step `n`, scanning `u` returns an edge to `v`. */
  ghost predicate Leads(q: Query, n: nat, u: Id, v: Id)
    requires q.follow != []
  {
    exists e: Edge :: e in q.repo.scan(q.follow[n % |q.follow|], u) && e.target == v
  }

  /** A path from seed `j` whose `i`-th edge is of the `i`-th kind; what it passes through can be located. */
  ghost predicate PathFrom(q: Query, j: nat, p: seq<Id>)
    requires q.follow != []
  {
    && j < |q.seeds| && p != [] && p[0] == q.seeds[j].id
    && (forall i :: 0 <= i < |p| - 1 ==> Leads(q, i, p[i], p[i + 1]))
    && (forall i :: 0 < i < |p| - 1 ==> q.repo.locate(p[i]))
  }

  /** The score of a contribution: its seed's weight over one more than its depth. */
  predicate Scores(q: Query, seed: Id, depth: nat, score: real) {
    exists j :: 0 <= j < |q.seeds| && q.seeds[j].id == seed && score * (depth + 1) as real == q.seeds[j].weight
  }

  // ----- the members of the model, by what they mean

  lemma PassesIffShown(q: Query, e: Edge)
    ensures Passes(q, e) <==> Shown(q, e)
  {
  }

  lemma IsSeedIff(q: Query, t: Id)
    ensures t in SeedIds(q.seeds) <==> IsSeed(q, t)
  {
  }

  lemma {:induction false} WeightIsSeeds(seeds: seq<Seed>, id: Id) returns (j: nat)
    requires id in SeedIds(seeds)
    ensures j < |seeds| && seeds[j].id == id && WeightOf(seeds, id) == seeds[j].weight
  {
    if seeds[0].id == id {
      j := 0;
    } else {
      var i :| 0 <= i < |seeds| && seeds[i].id == id;
      assert seeds[1..][i - 1] == seeds[i];
      var k := WeightIsSeeds(seeds[1..], id);
      j := k + 1;
    }
  }

  lemma ScoreIsWeight(q: Query, seed: Id, depth: nat)
    requires seed in SeedIds(q.seeds)
    ensures Scores(q, seed, depth, ScoreAt(WeightOf(q.seeds, seed), depth))
  {
    var j := WeightIsSeeds(q.seeds, seed);
    var w, d := q.seeds[j].weight, (1 + depth) as real;
    assert w / d * d == w;
  }

  /** The hit that edge makes. */
  ghost predicate Gives(q: Query, trace: Trace, n: nat, m: nat, h: Hit)
    requires q.follow != []
  {
    && ScannedAt(q, trace, n, m, h.edge)
    && h == Hit(trace[n][m].seed, ScoreAt(WeightOf(q.seeds, trace[n][m].seed), n + 1), n + 1, h.edge)
  }

  lemma HitOfStep(q: Query, trace: Trace, n: nat, h: Hit)
    requires q.follow != [] && n < |trace|
    ensures h in StepHits(q, n, trace[n]) <==> exists m: nat :: Gives(q, trace, n, m, h)
  {
    var via := q.follow[n % |q.follow|];
    AllHitsIff(q, via, trace[n], n + 1, h);
    if i :| 0 <= i < |trace[n]| && h in HitsOf(q, via, trace[n][i], n + 1) {
      assert Gives(q, trace, n, i, h);
    }
    if m: nat :| Gives(q, trace, n, m, h) {
      var edges := q.repo.scan(via, trace[n][m].id);
      var k :| 0 <= k < |edges| && edges[k] == h.edge;
      assert HitsOf(q, via, trace[n][m], n + 1)[k] == h;
      assert h in HitsOf(q, via, trace[n][m], n + 1);
    }
  }

  /** The hits of a run are what its steps scan. */
  lemma {:induction false} HitOfRun(q: Query, trace: Trace, h: Hit)
    requires q.follow != []
    ensures h in Contributed(q, trace) <==> exists n :: 0 <= n < |trace| && h in StepHits(q, n, trace[n])
  {
    hide StepHits;
    if trace != [] {
      var n := |trace| - 1;
      HitOfRun(q, trace[..n], h);
      assert forall i :: 0 <= i < n ==> trace[..n][i] == trace[i];
    }
  }

  lemma EdgeGives(q: Query, trace: Trace, n: nat, m: nat, e: Edge) returns (h: Hit)
    requires q.follow != [] && ScannedAt(q, trace, n, m, e)
    ensures n < |trace| && Gives(q, trace, n, m, h) && h.edge == e && h in StepHits(q, n, trace[n])
  {
    h := Hit(trace[n][m].seed, ScoreAt(WeightOf(q.seeds, trace[n][m].seed), n + 1), n + 1, e);
    assert Gives(q, trace, n, m, h);
    HitOfStep(q, trace, n, h);
  }

  lemma StepTargets(q: Query, trace: Trace, n: nat, t: Id)
    requires q.follow != [] && n < |trace|
    ensures HitOn(StepHits(q, n, trace[n]), t) <==> Scanned(q, trace, n, t)
  {
    hide StepHits, ScannedAt;
    if h :| h in StepHits(q, n, trace[n]) && h.edge.target == t {
      HitOfStep(q, trace, n, h);
      var m: nat :| Gives(q, trace, n, m, h);
      assert ScannedAt(q, trace, n, m, h.edge);
    }
    if m: nat, e: Edge :| ScannedAt(q, trace, n, m, e) && e.target == t {
      var h := EdgeGives(q, trace, n, m, e);
    }
  }

  lemma RunTargets(q: Query, trace: Trace, t: Id)
    requires q.follow != []
    ensures HitOn(Contributed(q, trace), t) <==> exists n :: 0 <= n < |trace| && Scanned(q, trace, n, t)
  {
    hide Scanned, Contributed, StepHits;
    forall h ensures h in Contributed(q, trace) <==> exists n :: 0 <= n < |trace| && h in StepHits(q, n, trace[n]) { HitOfRun(q, trace, h); }
    forall n | 0 <= n < |trace| ensures HitOn(StepHits(q, n, trace[n]), t) <==> Scanned(q, trace, n, t) { StepTargets(q, trace, n, t); }
    if h :| h in Contributed(q, trace) && h.edge.target == t {
      var n :| 0 <= n < |trace| && h in StepHits(q, n, trace[n]);
      assert HitOn(StepHits(q, n, trace[n]), t);
    }
    if n :| 0 <= n < |trace| && Scanned(q, trace, n, t) {
      var h :| h in StepHits(q, n, trace[n]) && h.edge.target == t;
      assert h in Contributed(q, trace);
    }
  }

  // ----- every row

  lemma RowHasPath(q: Query, seedScores: map<Id, real>, rows: seq<Row>, i: nat) returns (j: nat, p: seq<Id>)
    requires q.follow != [] && RowsOk(q, seedScores, rows) && i < |rows|
    ensures j < |q.seeds| && PathFrom(q, j, p) && |p| == rows[i].depth + 1 && p[rows[i].depth] == rows[i].edge.target
    ensures 1 <= rows[i].depth <= q.depth
    ensures Scores(q, p[0], rows[i].depth, rows[i].score)
  {
    hide WalkOf, Leads, Scores, Passes, ScoreAt;
    var row := rows[i];
    assert RowOk(q, seedScores, row);
    var s :| WitnessedBy(q, seedScores, row, s);
    p := WalkIsPath(q, s, row.edge.target, row.depth);
    j :| 0 <= j < |q.seeds| && q.seeds[j].id == s;
    ScoreIsWeight(q, s, row.depth);
  }

  lemma WalkIsPath(q: Query, s: Id, v: Id, n: nat) returns (p: seq<Id>)
    requires q.follow != [] && WalkOf(q.repo, q.follow, s, v, n)
    ensures |p| == n + 1 && p[0] == s && p[n] == v
    ensures forall i :: 0 <= i < n ==> Leads(q, i, p[i], p[i + 1])
    ensures forall i :: 0 < i < n ==> q.repo.locate(p[i])
  {
    p :| Walk(q.repo, q.follow, p) && |p| == n + 1 && p[0] == s && p[n] == v;
    forall i | 0 <= i < n ensures Leads(q, i, p[i], p[i + 1]) {
      assert Steps(q.repo, KindAt(q.follow, i), p[i], p[i + 1]);
      var edges := q.repo.scan(q.follow[i % |q.follow|], p[i]);
      var k :| 0 <= k < |edges| && edges[k].target == p[i + 1];
      assert edges[k] in edges;
    }
  }

  lemma ScannedInit(q: Query, trace: Trace, n: nat, t: Id)
    requires q.follow != [] && trace != [] && n < |trace| - 1
    ensures Scanned(q, trace[..|trace| - 1], n, t) <==> Scanned(q, trace, n, t)
  {
    var init := trace[..|trace| - 1];
    if Scanned(q, trace, n, t) {
      var m: nat, e: Edge :| ScannedAt(q, trace, n, m, e) && e.target == t;
      assert ScannedAt(q, init, n, m, e);
    }
    if Scanned(q, init, n, t) {
      var m: nat, e: Edge :| ScannedAt(q, init, n, m, e) && e.target == t;
      assert ScannedAt(q, trace, n, m, e);
    }
  }

  /** The edge a row shows: one of the first step that reaches its target, let through by the filters. */
  ghost predicate FirstEdge(q: Query, trace: Trace, row: Row, n: nat, m: nat)
    requires q.follow != []
  {
    && ScannedAt(q, trace, n, m, row.edge) && row.via == q.follow[n % |q.follow|]
    && Shown(q, row.edge) && !IsSeed(q, row.edge.target)
    && (forall k :: 0 <= k < n ==> !Scanned(q, trace, k, row.edge.target))
  }

  lemma FirstEdgeLonger(q: Query, trace: Trace, row: Row, row': Row, n: nat, m: nat)
    requires q.follow != [] && trace != [] && FirstEdge(q, trace[..|trace| - 1], row, n, m)
    requires row'.edge == row.edge && row'.via == row.via
    ensures FirstEdge(q, trace, row', n, m)
  {
    hide Scanned;
    forall k | 0 <= k <= n ensures Scanned(q, trace[..|trace| - 1], k, row.edge.target) <==> Scanned(q, trace, k, row.edge.target) {
      ScannedInit(q, trace, k, row.edge.target);
    }
  }

  lemma {:induction false} RowHasEdge(q: Query, trace: Trace, t: Id) returns (n: nat, m: nat)
    requires q.follow != [] && RowOf(q, trace, t).Some?
    ensures RowOf(q, trace, t).value.edge.target == t && FirstEdge(q, trace, RowOf(q, trace, t).value, n, m)
  {
    hide StepHits, HitOn, ScannedAt, Scanned, Shown, IsSeed, Contributed, FirstEdge;
    var last := |trace| - 1;
    var before, row := RowOf(q, trace[..last], t), RowOf(q, trace, t).value;
    if before.Some? {
      n, m := RowHasEdge(q, trace[..last], t);
      FirstEdgeLonger(q, trace, before.value, row, n, m);
    } else {
      n := last;
      m := NewRowHasEdge(q, trace, t);
    }
  }

  lemma NewRowHasEdge(q: Query, trace: Trace, t: Id) returns (m: nat)
    requires q.follow != [] && trace != [] && RowOf(q, trace, t).Some? && RowOf(q, trace[..|trace| - 1], t).None?
    ensures RowOf(q, trace, t).value.edge.target == t && FirstEdge(q, trace, RowOf(q, trace, t).value, |trace| - 1, m)
  {
    hide StepHits, HitOn, Scanned, Shown, IsSeed, Contributed;
    var last := |trace| - 1;
    var hits, past := StepHits(q, last, trace[last]), Contributed(q, trace[..last]);
    var h := Winner(hits, t);
    WinnerIn(hits, h);
    PassesIffShown(q, h.edge);
    IsSeedIff(q, t);
    HitOfStep(q, trace, last, h);
    m :| Gives(q, trace, last, m, h);
    RunTargets(q, trace[..last], t);
    forall k | 0 <= k < last ensures !Scanned(q, trace, k, t) { ScannedInit(q, trace, k, t); }
  }

  // ----- which targets have rows, and with what depth and score

  /** The filters let through every edge to the target that step `n` scans. */
  ghost predicate AllShownAt(q: Query, trace: Trace, n: nat, t: Id)
    requires q.follow != []
  {
    forall m: nat, e: Edge :: ScannedAt(q, trace, n, m, e) && e.target == t ==> Shown(q, e)
  }

  /** None of them. */
  ghost predicate NoneShownAt(q: Query, trace: Trace, n: nat, t: Id)
    requires q.follow != []
  {
    forall m: nat, e: Edge :: ScannedAt(q, trace, n, m, e) && e.target == t ==> !Shown(q, e)
  }

  /** No edge step `n` scans to the target beats this depth and score: a larger score does, and an equal one at a smaller depth. */
  ghost predicate UnbeatenAt(q: Query, trace: Trace, n: nat, t: Id, depth: nat, score: real)
    requires q.follow != []
  {
    forall m: nat, e: Edge, j ::
      ScannedAt(q, trace, n, m, e) && e.target == t && 0 <= j < |q.seeds| && q.seeds[j].id == trace[n][m].seed ==>
        score * (n + 2) as real > q.seeds[j].weight || (score * (n + 2) as real == q.seeds[j].weight && depth <= n + 1)
  }

  lemma ShownPassAt(q: Query, trace: Trace, n: nat, t: Id)
    requires q.follow != [] && n < |trace|
    ensures AllShownAt(q, trace, n, t) ==> AllPass(q, StepHits(q, n, trace[n]), t)
    ensures NoneShownAt(q, trace, n, t) ==> forall h :: h in StepHits(q, n, trace[n]) && h.edge.target == t ==> !Passes(q, h.edge)
  {
    hide StepHits, Shown, Passes;
    forall h | h in StepHits(q, n, trace[n]) && h.edge.target == t
      ensures AllShownAt(q, trace, n, t) ==> Passes(q, h.edge)
      ensures NoneShownAt(q, trace, n, t) ==> !Passes(q, h.edge)
    {
      HitOfStep(q, trace, n, h);
      var m: nat :| Gives(q, trace, n, m, h);
      PassesIffShown(q, h.edge);
    }
  }

  lemma {:induction false} WeightOfSeed(seeds: seq<Seed>, j: nat)
    requires j < |seeds| && forall i, k :: 0 <= i < k < |seeds| ==> seeds[i].id != seeds[k].id
    ensures WeightOf(seeds, seeds[j].id) == seeds[j].weight
  {
    if j > 0 {
      assert seeds[1..][j - 1] == seeds[j];
      WeightOfSeed(seeds[1..], j - 1);
    }
  }

  lemma ScoreAgainst(w: real, depth: nat, score: real)
    ensures ScoreAt(w, depth) < score <==> w < score * (depth + 1) as real
    ensures ScoreAt(w, depth) == score <==> w == score * (depth + 1) as real
  {
    var d, s := (1 + depth) as real, ScoreAt(w, depth);
    assert d > 0.0 && w == s * d && (depth + 1) as real == d;
    if s < score { assert s * d < score * d; }
    if s > score { assert s * d > score * d; }
  }

  /** No hit of these on the row's target beats the row. */
  ghost predicate NoneBetter(hits: seq<Hit>, row: Row) {
    forall h :: h in hits && h.edge.target == row.edge.target ==> !Better(h.score, h.depth, row.score, row.depth)
  }

  /** One of them, let through, has the row's depth and score. */
  ghost predicate FromShown(q: Query, hits: seq<Hit>, row: Row) {
    exists h :: h in hits && h.edge.target == row.edge.target && Passes(q, h.edge) && h.depth == row.depth && h.score == row.score
  }

  /** Where a row's depth and score come from, step by step. */
  lemma {:induction false} RowOfSteps(q: Query, trace: Trace, t: Id, k: nat)
    requires q.follow != [] && RowOf(q, trace, t).Some? && k < |trace|
    ensures var row := RowOf(q, trace, t).value;
      && row.edge.target == t
      && FromShown(q, Contributed(q, trace), row)
      && (AllPass(q, StepHits(q, k, trace[k]), t) ==> NoneBetter(StepHits(q, k, trace[k]), row))
  {
    hide StepHits, HitOn, Passes, FromShown, NoneBetter, AllPass;
    var n := |trace| - 1;
    var past, hits := Contributed(q, trace[..n]), StepHits(q, n, trace[n]);
    var before, row := RowOf(q, trace[..n], t), RowOf(q, trace, t).value;
    if before.Some? && n > 0 {
      RowOfSteps(q, trace[..n], t, if k < n then k else 0);
      assert k < n ==> trace[..n][k] == trace[k];
    }
    if before.None? {
      RunTargets(q, trace[..n], t);
      if k < n { NotHitBefore(q, trace, t, k); }
    }
    if HitOn(hits, t) {
      StepOnRow(q, KindAt(q.follow, n), before, past, hits, IsNew(q, past, t), t, row);
    } else {
      SameRow(q, past, hits, row, t);
    }
    if k < n && before.Some? { StaysUnbeaten(StepHits(q, k, trace[k]), before.value, row); }
  }

  lemma SameRow(q: Query, past: seq<Hit>, hits: seq<Hit>, row: Row, t: Id)
    requires !HitOn(hits, t) && row.edge.target == t
    ensures FromShown(q, past, row) ==> FromShown(q, past + hits, row)
    ensures NoneBetter(hits, row)
  {
    if FromShown(q, past, row) {
      var h :| h in past && h.edge.target == row.edge.target && Passes(q, h.edge) && h.depth == row.depth && h.score == row.score;
      assert h in past + hits;
    }
  }

  /** A row new in the last step was not hit before. */
  lemma NotHitBefore(q: Query, trace: Trace, t: Id, k: nat)
    requires q.follow != [] && trace != [] && k < |trace| - 1
    requires RowOf(q, trace, t).Some? && RowOf(q, trace[..|trace| - 1], t).None?
    ensures RowOf(q, trace, t).value.edge.target == t && NoneBetter(StepHits(q, k, trace[k]), RowOf(q, trace, t).value)
  {
    hide StepHits, Contributed, Passes, Scanned;
    var n := |trace| - 1;
    RunTargets(q, trace[..n], t);
    ScannedInit(q, trace, k, t);
    StepTargets(q, trace, k, t);
  }

  /** A step that hits the row's target keeps or improves it, or makes it. */
  lemma StepOnRow(q: Query, via: string, before: Option<Row>, past: seq<Hit>, hits: seq<Hit>, isNew: bool, t: Id, row: Row)
    requires HitOn(hits, t) && RowAfter(q, via, before, Winner(hits, t), isNew, false) == Some(row)
    requires before.Some? ==> before.value.edge.target == t && FromShown(q, past, before.value)
    ensures row.edge.target == t && FromShown(q, past + hits, row)
    ensures AllPass(q, hits, t) ==> NoneBetter(hits, row)
    ensures before.Some? ==> !Better(before.value.score, before.value.depth, row.score, row.depth)
  {
    hide HitOn;
    var w := Winner(hits, t);
    WinnerIn(hits, w);
    assert w in past + hits;
    if before.Some? {
      var h :| h in past && h.edge.target == t && Passes(q, h.edge) && h.depth == before.value.depth && h.score == before.value.score;
      assert h in past + hits;
    }
    if AllPass(q, hits, t) {
      forall h | h in hits && h.edge.target == t ensures !Better(h.score, h.depth, row.score, row.depth) {
        NotBetterTransitive(h.score, h.depth, w.score, w.depth, row.score, row.depth);
      }
    }
  }

  lemma StaysUnbeaten(hits: seq<Hit>, before: Row, row: Row)
    requires before.edge.target == row.edge.target && !Better(before.score, before.depth, row.score, row.depth)
    ensures NoneBetter(hits, before) ==> NoneBetter(hits, row)
  {
    if NoneBetter(hits, before) {
      forall h | h in hits && h.edge.target == row.edge.target ensures !Better(h.score, h.depth, row.score, row.depth) {
        NotBetterTransitive(h.score, h.depth, before.score, before.depth, row.score, row.depth);
      }
    }
  }

  lemma RowHasHit(q: Query, trace: Trace, t: Id)
    requires q.follow != [] && RowOf(q, trace, t).Some?
    ensures HitOn(Contributed(q, trace), t)
  {
    hide HitOn, Contributed, Scanned, FirstEdge;
    var n, m := RowHasEdge(q, trace, t);
    FirstEdgeScans(q, trace, RowOf(q, trace, t).value, n, m);
    RunTargets(q, trace, t);
  }

  lemma FirstEdgeScans(q: Query, trace: Trace, row: Row, n: nat, m: nat)
    requires q.follow != [] && FirstEdge(q, trace, row, n, m)
    ensures n < |trace| && Scanned(q, trace, n, row.edge.target)
  {
    hide Shown, IsSeed;
  }

  /** Whether a target has a row is settled by the filters in the first step that reaches it. */
  lemma {:induction false} RowFromFirstStep(q: Query, trace: Trace, t: Id, n: nat)
    requires q.follow != [] && n < |trace| && !IsSeed(q, t)
    requires HitOn(StepHits(q, n, trace[n]), t) && forall k :: 0 <= k < n ==> !HitOn(StepHits(q, k, trace[k]), t)
    ensures AllPass(q, StepHits(q, n, trace[n]), t) ==> RowOf(q, trace, t).Some?
    ensures (forall h :: h in StepHits(q, n, trace[n]) && h.edge.target == t ==> !Passes(q, h.edge)) ==> RowOf(q, trace, t).None?
  {
    hide StepHits, HitOn, Passes, IsSeed, Contributed;
    var last := |trace| - 1;
    var before := trace[..last];
    IsSeedIff(q, t);
    assert forall k :: 0 <= k < last ==> before[k] == trace[k];
    HitsBefore(q, before, t);
    if n < last {
      RowFromFirstStep(q, before, t, n);
      assert HitOn(Contributed(q, before), t);
    } else {
      if RowOf(q, before, t).Some? { RowHasHit(q, before, t); }
      assert RowOf(q, before, t).None? && IsNew(q, Contributed(q, before), t);
      WinnerIn(StepHits(q, n, trace[n]), Winner(StepHits(q, n, trace[n]), t));
    }
  }

  lemma HitsBefore(q: Query, trace: Trace, t: Id)
    requires q.follow != []
    ensures HitOn(Contributed(q, trace), t) <==> exists k :: 0 <= k < |trace| && HitOn(StepHits(q, k, trace[k]), t)
  {
    hide HitOn, StepHits, Contributed, Scanned;
    RunTargets(q, trace, t);
    forall k | 0 <= k < |trace| ensures HitOn(StepHits(q, k, trace[k]), t) <==> Scanned(q, trace, k, t) { StepTargets(q, trace, k, t); }
  }

  // ----- the answer

  lemma BetterMeans(q: Query, trace: Trace, n: nat, row: Row)
    requires q.follow != [] && n < |trace| && DistinctSeeds(q.seeds) && NoneBetter(StepHits(q, n, trace[n]), row)
    ensures UnbeatenAt(q, trace, n, row.edge.target, row.depth, row.score)
  {
    hide StepHits, ScoreAt;
    forall m: nat, e: Edge, j |
      ScannedAt(q, trace, n, m, e) && e.target == row.edge.target && 0 <= j < |q.seeds| && q.seeds[j].id == trace[n][m].seed
      ensures row.score * (n + 2) as real > q.seeds[j].weight || (row.score * (n + 2) as real == q.seeds[j].weight && row.depth <= n + 1)
    {
      var h := EdgeGives(q, trace, n, m, e);
      WeightOfSeed(q.seeds, j);
      ScoreAgainst(q.seeds[j].weight, n + 1, row.score);
    }
  }

  /** The depth and score of a row are those of a scanned edge to its target that the filters let through. */
  ghost predicate ScoredBy(q: Query, trace: Trace, row: Row, n: nat, m: nat, e: Edge)
    requires q.follow != []
  {
    && ScannedAt(q, trace, n, m, e) && e.target == row.edge.target && Shown(q, e) && row.depth == n + 1
    && forall j :: 0 <= j < |q.seeds| && q.seeds[j].id == trace[n][m].seed ==> row.score * (n + 2) as real == q.seeds[j].weight
  }

  lemma ShownScores(q: Query, trace: Trace, row: Row) returns (n: nat, m: nat, e: Edge)
    requires q.follow != [] && DistinctSeeds(q.seeds) && FromShown(q, Contributed(q, trace), row)
    ensures ScoredBy(q, trace, row, n, m, e)
  {
    hide StepHits, Contributed, ScoreAt, Passes, Shown;
    var h :| h in Contributed(q, trace) && h.edge.target == row.edge.target && Passes(q, h.edge) && h.depth == row.depth && h.score == row.score;
    HitOfRun(q, trace, h);
    n :| n < |trace| && h in StepHits(q, n, trace[n]);
    HitOfStep(q, trace, n, h);
    m :| Gives(q, trace, n, m, h);
    e := h.edge;
    PassesIffShown(q, e);
    forall j | 0 <= j < |q.seeds| && q.seeds[j].id == trace[n][m].seed ensures row.score * (n + 2) as real == q.seeds[j].weight {
      WeightOfSeed(q.seeds, j);
      ScoreAgainst(q.seeds[j].weight, n + 1, row.score);
    }
  }

  lemma RowNeedsSteps(q: Query, trace: Trace, t: Id)
    requires q.follow != [] && RowOf(q, trace, t).Some?
    ensures trace != []
  {
  }

  /**
   Every row of any answer, truncated or not, shows an edge of the first step that reaches its
   target; its depth and score are those of an edge the filters let through; and no step `k` whose
   edges to the target are all let through beats them.
   */
  lemma RowMeans(q: Query, trace: Trace, rows: seq<Row>, i: nat, k: nat) returns (first: (nat, nat), best: (nat, nat, Edge))
    requires q.follow != [] && DistinctSeeds(q.seeds) && RowsFollow(q, trace, rows) && i < |rows|
    ensures FirstEdge(q, trace, rows[i], first.0, first.1)
    ensures ScoredBy(q, trace, rows[i], best.0, best.1, best.2)
    ensures k < |trace| && AllShownAt(q, trace, k, rows[i].edge.target) ==>
      UnbeatenAt(q, trace, k, rows[i].edge.target, rows[i].depth, rows[i].score)
  {
    hide RowOf, FirstEdge, FromShown, StepHits, Contributed, ScoredBy, AllShownAt, UnbeatenAt, NoneBetter, AllPass;
    var t := rows[i].edge.target;
    var n, m := RowHasEdge(q, trace, t);
    first := (n, m);
    RowNeedsSteps(q, trace, t);
    RowOfSteps(q, trace, t, if k < |trace| then k else 0);
    var a, b, c := ShownScores(q, trace, rows[i]);
    best := (a, b, c);
    if k < |trace| {
      ShownPassAt(q, trace, k, t);
      if AllShownAt(q, trace, k, t) { BetterMeans(q, trace, k, rows[i]); }
    }
  }

  /**
   In an answer that is not truncated, whether a node that is no seed has a row is settled by the
   first step that scans an edge to it: it has one if the filters let all those edges through, and
   none if they let none through. Without filters that is every node an edge leads to.
   */
  lemma ScannedTargetsHaveRows(q: Query, trace: Trace, rows: seq<Row>, n: nat, t: Id)
    requires q.follow != [] && Answer(q, trace, rows)
    requires n < |trace| && Scanned(q, trace, n, t) && !IsSeed(q, t) && forall k :: 0 <= k < n ==> !Scanned(q, trace, k, t)
    ensures AllShownAt(q, trace, n, t) ==> exists i :: 0 <= i < |rows| && rows[i].edge.target == t
    ensures NoneShownAt(q, trace, n, t) ==> !exists i :: 0 <= i < |rows| && rows[i].edge.target == t
  {
    hide Contributed, StepHits, RowOf, TraceOk, Follows, Continues, TraceIds, Scanned, AllShownAt, NoneShownAt, DistinctTargets, HitOn, Passes, AllPass;
    forall k | 0 <= k <= n ensures HitOn(StepHits(q, k, trace[k]), t) <==> Scanned(q, trace, k, t) { StepTargets(q, trace, k, t); }
    ShownPassAt(q, trace, n, t);
    RowFromFirstStep(q, trace, t, n);
  }

  // ----- which nodes are scanned, and under which seed

  /** The run starts with the seeds, each under itself. */
  lemma FirstFrontier(q: Query, frontier: seq<FrontierNode>)
    requires q.follow != [] && Continues(q, [], frontier)
    ensures |frontier| == |q.seeds| && forall i :: 0 <= i < |frontier| ==> frontier[i].id == frontier[i].seed == q.seeds[i].id
  {
  }

  /**
   After a step the run scans exactly the targets of the edges just scanned that are no seeds, were
   not reached before and can be located.
   */
  lemma NextFrontier(q: Query, trace: Trace, next: seq<FrontierNode>, v: Id)
    requires q.follow != [] && trace != [] && Continues(q, trace, next)
    ensures var n := |trace| - 1;
      (exists i :: 0 <= i < |next| && next[i].id == v) <==>
        Scanned(q, trace, n, v) && !IsSeed(q, v) && q.repo.locate(v) && forall k :: 0 <= k < n ==> !Scanned(q, trace, k, v)
    ensures forall i, j :: 0 <= i < j < |next| ==> next[i].id != next[j].id
  {
    hide StepHits, HitOn, Scanned, IsSeed, Contributed;
    var n := |trace| - 1;
    IsSeedIff(q, v);
    StepTargets(q, trace, n, v);
    RunTargets(q, trace[..n], v);
    forall k | 0 <= k < n ensures Scanned(q, trace[..n], k, v) <==> Scanned(q, trace, k, v) { ScannedInit(q, trace, k, v); }
    assert InFrontier(next, v) <==> exists i :: 0 <= i < |next| && next[i].id == v;
  }

  /** A node is expanded under a seed of the largest weight among those that reach it in that step. */
  lemma NextSeed(q: Query, trace: Trace, next: seq<FrontierNode>, i: nat) returns (m: nat, e: Edge)
    requires q.follow != [] && trace != [] && DistinctSeeds(q.seeds) && Continues(q, trace, next) && i < |next|
    ensures var n := |trace| - 1;
      && ScannedAt(q, trace, n, m, e) && e.target == next[i].id && next[i].seed == trace[n][m].seed
      && forall m': nat, e': Edge, j, j' ::
           && ScannedAt(q, trace, n, m', e') && e'.target == next[i].id
           && 0 <= j < |q.seeds| && q.seeds[j].id == trace[n][m].seed && 0 <= j' < |q.seeds| && q.seeds[j'].id == trace[n][m'].seed ==>
             q.seeds[j'].weight <= q.seeds[j].weight
  {
    hide Contributed, StepHits, HitOn, ScoreAt;
    var n := |trace| - 1;
    var hits := StepHits(q, n, trace[n]);
    var h := Winner(hits, next[i].id);
    WinnerIn(hits, h);
    HitOfStep(q, trace, n, h);
    m :| Gives(q, trace, n, m, h);
    e := h.edge;
    forall m': nat, e': Edge, j, j' |
      && ScannedAt(q, trace, n, m', e') && e'.target == next[i].id
      && 0 <= j < |q.seeds| && q.seeds[j].id == trace[n][m].seed && 0 <= j' < |q.seeds| && q.seeds[j'].id == trace[n][m'].seed
      ensures q.seeds[j'].weight <= q.seeds[j].weight
    {
      var g := EdgeGives(q, trace, n, m', e');
      WeightOfSeed(q.seeds, j);
      WeightOfSeed(q.seeds, j');
      ScoreAgainst(q.seeds[j'].weight, n + 1, h.score);
      ScoreAgainst(q.seeds[j].weight, n + 1, h.score);
    }
  }

  // ----- what the seeds are credited with

  /** The credit is what a scan of step `n` is worth under seed `s`. */
  ghost predicate Credits(q: Query, n: nat, s: Id, credit: real) {
    forall j :: 0 <= j < |q.seeds| && q.seeds[j].id == s ==> credit * (n + 2) as real == q.seeds[j].weight
  }

  /** A seed credited has scanned an edge that is worth its credit. */
  lemma CreditIsEarned(q: Query, trace: Trace, seedScores: map<Id, real>, s: Id) returns (n: nat, m: nat, e: Edge)
    requires q.follow != [] && DistinctSeeds(q.seeds) && Credited(map[], Contributed(q, trace), seedScores) && s in seedScores
    ensures ScannedAt(q, trace, n, m, e) && trace[n][m].seed == s && Credits(q, n, s, seedScores[s])
  {
    hide Contributed, StepHits, ScoreAt;
    var h :| h in Contributed(q, trace) && h.seed == s && h.score == seedScores[s];
    HitOfRun(q, trace, h);
    n :| n < |trace| && h in StepHits(q, n, trace[n]);
    HitOfStep(q, trace, n, h);
    m :| Gives(q, trace, n, m, h);
    e := h.edge;
    forall j | 0 <= j < |q.seeds| && q.seeds[j].id == s ensures seedScores[s] * (n + 2) as real == q.seeds[j].weight {
      WeightOfSeed(q.seeds, j);
      ScoreAgainst(q.seeds[j].weight, n + 1, seedScores[s]);
    }
  }

  /** Every edge scanned under a seed is worth at most the seed's credit. */
  lemma CreditIsLargest(q: Query, trace: Trace, seedScores: map<Id, real>, n: nat, m: nat, e: Edge, j: nat)
    requires q.follow != [] && DistinctSeeds(q.seeds) && Credited(map[], Contributed(q, trace), seedScores)
    requires ScannedAt(q, trace, n, m, e) && j < |q.seeds| && q.seeds[j].id == trace[n][m].seed
    ensures q.seeds[j].id in seedScores && seedScores[q.seeds[j].id] * (n + 2) as real >= q.seeds[j].weight
  {
    hide Contributed, StepHits, ScoreAt;
    var h := EdgeGives(q, trace, n, m, e);
    HitOfRun(q, trace, h);
    WeightOfSeed(q.seeds, j);
    ScoreAgainst(q.seeds[j].weight, n + 1, seedScores[q.seeds[j].id]);
  }
}
