/**
 What an answer says in terms of walks, when the traversal follows one kind of edge and
 filters nothing: which nodes have rows, and when a row's depth is its node's distance.
 */
module QueryExactness {
  import opened Wrappers
  import opened GraphWalks
  import opened QueryGraph
  import opened QueryHistory

  predicate Plain(q: Query) {
    q.follow != [] && OneKind(q.follow, q.follow[0]) && Unfiltered(q)
  }

  ghost function Level(q: Query, n: nat): set<Id>
    requires q.follow != []
  {
    Within(q.repo, q.follow[0], SeedIds(q.seeds), n)
  }

  ghost function LevelFrontier(q: Query, n: nat): set<Id>
    requires q.follow != []
  {
    Frontier(q.repo, q.follow[0], SeedIds(q.seeds), n)
  }

  // ----- the run goes through the levels

  /** A step hits exactly the targets of its frontier. */
  lemma StepTargets(q: Query, n: nat, frontier: seq<FrontierNode>, t: Id)
    requires Plain(q)
    requires forall v :: InFrontier(frontier, v) <==> v in LevelFrontier(q, n)
    ensures HitOn(StepHits(q, n, frontier), t) <==> t in Targets(q.repo, q.follow[0], LevelFrontier(q, n))
  {
    hide LevelFrontier, Unfiltered;
    var kind, level, hits := q.follow[0], LevelFrontier(q, n), StepHits(q, n, frontier);
    assert KindAt(q.follow, n) == kind;
    TargetsIff(q.repo, kind, level, t);
    if HitOn(hits, t) {
      var h :| h in hits && h.edge.target == t;
      HitsAreOk(q, kind, frontier, n, h);
      var i :| 0 <= i < |frontier| && frontier[i].seed == h.seed && Steps(q.repo, kind, frontier[i].id, t);
      assert InFrontier(frontier, frontier[i].id);
    }
    if u :| u in level && Steps(q.repo, kind, u, t) {
      assert InFrontier(frontier, u);
      var i :| 0 <= i < |frontier| && frontier[i].id == u;
      var k :| 0 <= k < |q.repo.scan(kind, u)| && q.repo.scan(kind, u)[k].target == t;
      var h := HitsOf(q, kind, frontier[i], n + 1)[k];
      assert h in HitsOf(q, kind, frontier[i], n + 1);
      AllHitsIff(q, kind, frontier, n + 1, h);
      assert h.edge.target == t;
    }
  }

  lemma LevelGrows(q: Query, n: nat, v: Id)
    requires q.follow != []
    ensures v in Level(q, n + 1) <==> v in Level(q, n) || v in Targets(q.repo, q.follow[0], LevelFrontier(q, n))
    ensures v in LevelFrontier(q, n + 1) <==>
      v in Targets(q.repo, q.follow[0], LevelFrontier(q, n)) && v !in Level(q, n) && q.repo.locate(v)
  {
  }

  lemma FollowsInit(q: Query, trace: Trace)
    requires q.follow != [] && Follows(q, trace) && trace != []
    ensures Follows(q, trace[..|trace| - 1]) && Continues(q, trace[..|trace| - 1], trace[|trace| - 1])
  {
    hide Continues;
    var init := trace[..|trace| - 1];
    assert forall n :: 0 <= n < |init| ==> init[..n] == trace[..n];
  }

  lemma SeedsInFrontier(q: Query, v: Id)
    ensures InFrontier(SeedNodes(q.seeds), v) <==> v in SeedIds(q.seeds)
  {
    if v in SeedIds(q.seeds) {
      var k :| 0 <= k < |q.seeds| && q.seeds[k].id == v;
      assert SeedNodes(q.seeds)[k].id == v;
    }
  }

  /** The targets of the first `n` steps, with the seeds, are the nodes within `n` steps of the seeds. */
  lemma {:induction false} RunReaches(q: Query, trace: Trace, v: Id)
    requires Plain(q) && Follows(q, trace)
    ensures v in SeedIds(q.seeds) || HitOn(Contributed(q, trace), v) <==> v in Level(q, |trace|)
    decreases |trace|, 0
  {
    hide Continues, LevelFrontier, HitOn, StepHits, Unfiltered;
    if trace == [] {
      NoHits(v);
    } else {
      var n := |trace| - 1;
      FollowsInit(q, trace);
      RunReaches(q, trace[..n], v);
      forall u ensures InFrontier(trace[n], u) <==> u in LevelFrontier(q, n) { RunFrontier(q, trace[..n], trace[n], u); }
      StepTargets(q, n, trace[n], v);
      HitOnJoin(Contributed(q, trace[..n]), StepHits(q, n, trace[n]), v);
      LevelGrows(q, n, v);
    }
  }

  /** The next frontier is the nodes first reached at its step. */
  lemma {:induction false} RunFrontier(q: Query, trace: Trace, frontier: seq<FrontierNode>, v: Id)
    requires Plain(q) && Follows(q, trace) && Continues(q, trace, frontier)
    ensures InFrontier(frontier, v) <==> v in LevelFrontier(q, |trace|)
    decreases |trace|, 1
  {
    hide HitOn, StepHits, Contributed, InFrontier, Unfiltered;
    if trace == [] {
      SeedsInFrontier(q, v);
    } else {
      var n := |trace| - 1;
      FollowsInit(q, trace);
      RunReaches(q, trace[..n], v);
      forall u ensures InFrontier(trace[n], u) <==> u in LevelFrontier(q, n) { RunFrontier(q, trace[..n], trace[n], u); }
      StepTargets(q, n, trace[n], v);
      LevelGrows(q, n, v);
      InNext(q, Contributed(q, trace[..n]), StepHits(q, n, trace[n]), frontier, v);
    }
  }

  lemma InNext(q: Query, past: seq<Hit>, hits: seq<Hit>, next: seq<FrontierNode>, v: Id)
    requires Successor(q, past, hits, next)
    ensures InFrontier(next, v) <==> HitOn(hits, v) && v !in SeedIds(q.seeds) && !HitOn(past, v) && q.repo.locate(v)
  {
    hide HitOn;
  }

  /** A run that went on to its end has reached everything within the query's depth. */
  lemma AnswerReaches(q: Query, trace: Trace, rows: seq<Row>, v: Id)
    requires Plain(q) && Answer(q, trace, rows)
    ensures HasRow(rows, v) <==> v !in SeedIds(q.seeds) && v in Level(q, q.depth)
  {
    hide HitOn, HasRow, Contributed, RowsFollow, RowsComplete, TraceOk, Follows, Continues, LevelFrontier;
    UnfilteredRows(q, trace, rows);
    RunReaches(q, trace, v);
    if |trace| < q.depth {
      forall u ensures u !in LevelFrontier(q, |trace|) {
        RunFrontier(q, trace, [], u);
        assert !InFrontier([], u);
      }
      assert LevelFrontier(q, |trace|) == {};
      LevelsEnd(q, |trace|);
    }
  }

  lemma LevelsEnd(q: Query, n: nat)
    requires q.follow != [] && LevelFrontier(q, n) == {} && n <= q.depth
    ensures Level(q, q.depth) == Level(q, n)
  {
    EmptyFrontierEnds(q.repo, q.follow[0], SeedIds(q.seeds), n, q.depth);
  }

  lemma ReachedIffAtDistance(q: Query, v: Id)
    requires Plain(q)
    ensures v !in SeedIds(q.seeds) && v in Level(q, q.depth) <==>
      v !in SeedIds(q.seeds) && exists d :: 1 <= d <= q.depth && Distance(q.repo, q.follow, SeedIds(q.seeds), v, d)
  {
    hide Distance;
    var seeds := SeedIds(q.seeds);
    var kind := q.follow[0];
    if v !in seeds && v in Level(q, q.depth) {
      var d := FirstLevel(q.repo, kind, seeds, q.depth, v);
      DistanceIsFirstLevel(q.repo, q.follow, kind, seeds, v, d);
    }
    if d :| 1 <= d <= q.depth && Distance(q.repo, q.follow, seeds, v, d) {
      DistanceIsFirstLevel(q.repo, q.follow, kind, seeds, v, d);
      WithinGrows(q.repo, kind, seeds, d, q.depth);
    }
  }

  // ----- depths and scores

  predicate WeightsWithin(q: Query, lo: real, hi: real) {
    forall i :: 0 <= i < |q.seeds| ==> lo <= q.seeds[i].weight <= hi
  }

  /** No step within `depth` lets the heaviest seed outscore the lightest one step earlier. */
  predicate Steady(lo: real, hi: real, depth: nat) {
    depth <= 1 || hi * depth as real <= lo * (depth + 1) as real
  }

  lemma {:induction false} WeightOfWithin(seeds: seq<Seed>, lo: real, hi: real, id: Id)
    requires forall i :: 0 <= i < |seeds| ==> lo <= seeds[i].weight <= hi
    requires id in SeedIds(seeds)
    ensures lo <= WeightOf(seeds, id) <= hi
  {
    var i :| 0 <= i < |seeds| && seeds[i].id == id;
    if seeds[0].id != id {
      assert seeds[1..][i - 1] == seeds[i];
      WeightOfWithin(seeds[1..], lo, hi, id);
    }
  }

  lemma Fraction(w: real, v: real, x: real, y: real)
    requires x > 0.0 && y > 0.0
    ensures w / x <= v / y <==> w * y <= v * x
  {
    var s, t := w / x, v / y;
    assert w == s * x && v == t * y;
    assert w * y == s * (x * y) && v * x == t * (x * y);
    assert x * y > 0.0;
    if s <= t { assert s * (x * y) <= t * (x * y); }
    if s > t { assert s * (x * y) > t * (x * y); }
  }

  lemma TimesMonotone(v: real, w: real, x: real)
    requires v <= w && x >= 0.0
    ensures v * x <= w * x
  {
  }

  lemma SteadyIsNotNegative(lo: real, hi: real, D: real)
    requires lo <= hi && D > 0.0 && hi * D <= lo * (D + 1.0)
    ensures lo >= 0.0
  {
    TimesMonotone(lo, hi, D);
    assert lo * (D + 1.0) == lo * D + lo;
  }

  /** With steady weights no later hit has a larger score than an earlier one. */
  lemma SteadyScores(lo: real, hi: real, depth: nat, w: real, d: nat, w': real, d': nat)
    requires Steady(lo, hi, depth) && lo <= w <= hi && lo <= w' <= hi
    requires 1 <= d < d' <= depth
    ensures ScoreAt(w', d') <= ScoreAt(w, d)
  {
    var D, x, y := depth as real, (1 + d) as real, (1 + d') as real;
    assert (depth + 1) as real == D + 1.0;
    SteadyIsNotNegative(lo, hi, D);
    SteadyEarlier(lo, hi, D, x);
    CrossWeights(lo, hi, x, y, w, w');
    Fraction(w', w, y, x);
  }

  lemma CrossWeights(lo: real, hi: real, x: real, y: real, w: real, w': real)
    requires 0.0 < x && x + 1.0 <= y && lo >= 0.0 && hi * x <= lo * (x + 1.0)
    requires w' <= hi && lo <= w
    ensures w' * x <= w * y
  {
    TimesMonotone(w', hi, x);
    TimesMonotone(x + 1.0, y, lo);
    TimesMonotone(lo, w, y);
    calc {
      w' * x;
      <= hi * x;
      <= lo * (x + 1.0);
      == (x + 1.0) * lo;
      <= y * lo;
      == lo * y;
      <= w * y;
    }
  }

  lemma SteadyEarlier(lo: real, hi: real, D: real, x: real)
    requires 0.0 < x <= D && lo >= 0.0 && hi * D <= lo * (D + 1.0)
    ensures hi * x <= lo * (x + 1.0)
  {
    assert hi * D - lo * D <= lo;
    var gap := hi - lo;
    assert gap * D <= lo;
    if gap <= 0.0 { assert gap * x <= 0.0; }
    else { assert gap * x <= gap * D; }
    assert gap * x <= lo;
    assert hi * x == gap * x + lo * x;
  }

  /** A hit's depth is its step, and its score a seed's weight over one more than it. */
  lemma HitScore(q: Query, trace: Trace, n: nat, h: Hit, lo: real, hi: real)
    requires q.follow != [] && TraceOk(q, trace) && n < |trace| && WeightsWithin(q, lo, hi)
    requires h in StepHits(q, n, trace[n])
    ensures h.depth == n + 1 && h.score == ScoreAt(WeightOf(q.seeds, h.seed), n + 1)
    ensures lo <= WeightOf(q.seeds, h.seed) <= hi
  {
    hide ScoreAt;
    HitsAreOk(q, KindAt(q.follow, n), trace[n], n, h);
    var i :| 0 <= i < |trace[n]| && trace[n][i].seed == h.seed && Steps(q.repo, KindAt(q.follow, n), trace[n][i].id, h.edge.target);
    assert FrontierNodeOk(q, trace[n][i], n);
    WeightOfWithin(q.seeds, lo, hi, h.seed);
  }

  /** A row kept from the step that first reached its node. */
  ghost predicate FirstReached(q: Query, lo: real, hi: real, t: Id, row: Row)
    requires q.follow != []
  {
    && row.depth > 0 && t in Level(q, row.depth) && t !in Level(q, row.depth - 1)
    && (exists w :: lo <= w <= hi && row.score == ScoreAt(w, row.depth))
  }

  /** With steady weights every row stays as the step that first reached its node left it. */
  lemma {:induction false} SteadyRow(q: Query, trace: Trace, t: Id, lo: real, hi: real)
    requires Plain(q) && Follows(q, trace) && TraceOk(q, trace) && |trace| <= q.depth
    requires WeightsWithin(q, lo, hi) && Steady(lo, hi, q.depth)
    ensures RowOf(q, trace, t).Some? ==> RowOf(q, trace, t).value.depth <= |trace| && FirstReached(q, lo, hi, t, RowOf(q, trace, t).value)
  {
    hide Continues, StepHits, HitOn, Level, ScoreAt, Steady, WeightsWithin, Unfiltered, Contributed;
    if trace != [] {
      var n := |trace| - 1;
      var before, hits := RowOf(q, trace[..n], t), StepHits(q, n, trace[n]);
      FollowsInit(q, trace);
      SteadyRow(q, trace[..n], t, lo, hi);
      if HitOn(hits, t) {
        var h := Winner(hits, t);
        WinnerIn(hits, h);
        HitScore(q, trace, n, h, lo, hi);
        RunReaches(q, trace[..n], t);
        assert t in Level(q, n + 1) by { HitReaches(q, trace, t); }
        StepStays(q, n, Contributed(q, trace[..n]), before, h, t, lo, hi);
      }
    }
  }

  lemma HitReaches(q: Query, trace: Trace, t: Id)
    requires Plain(q) && Follows(q, trace) && trace != []
    requires HitOn(StepHits(q, |trace| - 1, trace[|trace| - 1]), t)
    ensures t in Level(q, |trace|)
  {
    hide HitOn, StepHits, Level, Follows, Unfiltered;
    RunReaches(q, trace, t);
    HitOnJoin(Contributed(q, trace[..|trace| - 1]), StepHits(q, |trace| - 1, trace[|trace| - 1]), t);
  }

  lemma StepStays(q: Query, n: nat, past: seq<Hit>, before: Option<Row>, h: Hit, t: Id, lo: real, hi: real)
    requires q.follow != [] && n < q.depth && Steady(lo, hi, q.depth)
    requires h.depth == n + 1 && h.score == ScoreAt(WeightOf(q.seeds, h.seed), n + 1) && lo <= WeightOf(q.seeds, h.seed) <= hi
    requires t in Level(q, n + 1) && (IsNew(q, past, t) ==> t !in Level(q, n))
    requires before.Some? ==> before.value.depth <= n && FirstReached(q, lo, hi, t, before.value)
    ensures var after := RowAfter(q, KindAt(q.follow, n), before, h, IsNew(q, past, t), false);
      after.Some? ==> after.value.depth <= n + 1 && FirstReached(q, lo, hi, t, after.value)
  {
    hide Level, ScoreAt, Steady, IsNew;
    if before.Some? {
      var row := before.value;
      var w :| lo <= w <= hi && row.score == ScoreAt(w, row.depth);
      SteadyScores(lo, hi, q.depth, w, row.depth, WeightOf(q.seeds, h.seed), n + 1);
    }
  }

  // ----- main results

  /**
   Following one kind of edge and filtering nothing, an untruncated answer has a row for
   exactly the non-seed nodes at distance one to `depth`, whatever the weights. With steady
   weights each row has its node's distance as depth, and a score between the lightest and
   the heaviest weight over one more than it; equal weights make that the score.
   */
  lemma RowsAreAtTheirDistance(q: Query, trace: Trace, rows: seq<Row>)
    requires Plain(q) && Answer(q, trace, rows)
    ensures forall v :: HasRow(rows, v) <==>
      v !in SeedIds(q.seeds) && exists d :: 1 <= d <= q.depth && Distance(q.repo, q.follow, SeedIds(q.seeds), v, d)
    ensures forall lo, hi, i :: WeightsWithin(q, lo, hi) && Steady(lo, hi, q.depth) && 0 <= i < |rows| ==>
      && Distance(q.repo, q.follow, SeedIds(q.seeds), rows[i].edge.target, rows[i].depth)
      && ScoreAt(lo, rows[i].depth) <= rows[i].score <= ScoreAt(hi, rows[i].depth)
  {
    forall v ensures HasRow(rows, v) <==>
      v !in SeedIds(q.seeds) && exists d :: 1 <= d <= q.depth && Distance(q.repo, q.follow, SeedIds(q.seeds), v, d)
    {
      AnswerReaches(q, trace, rows, v);
      ReachedIffAtDistance(q, v);
    }
    forall lo, hi, i | WeightsWithin(q, lo, hi) && Steady(lo, hi, q.depth) && 0 <= i < |rows|
      ensures Distance(q.repo, q.follow, SeedIds(q.seeds), rows[i].edge.target, rows[i].depth)
      ensures ScoreAt(lo, rows[i].depth) <= rows[i].score <= ScoreAt(hi, rows[i].depth)
    {
      SteadyDistance(q, trace, rows, lo, hi, i);
    }
  }

  lemma SteadyDistance(q: Query, trace: Trace, rows: seq<Row>, lo: real, hi: real, i: nat)
    requires Plain(q) && Answer(q, trace, rows) && i < |rows|
    requires WeightsWithin(q, lo, hi) && Steady(lo, hi, q.depth)
    ensures Distance(q.repo, q.follow, SeedIds(q.seeds), rows[i].edge.target, rows[i].depth)
    ensures ScoreAt(lo, rows[i].depth) <= rows[i].score <= ScoreAt(hi, rows[i].depth)
  {
    hide Distance, TraceOk, Follows, Continues, RowsComplete, RowOf, WeightsWithin, Steady, Unfiltered;
    var row := rows[i];
    SteadyRow(q, trace, row.edge.target, lo, hi);
    DistanceIsFirstLevel(q.repo, q.follow, q.follow[0], SeedIds(q.seeds), row.edge.target, row.depth);
    var w :| lo <= w <= hi && row.score == ScoreAt(w, row.depth);
    ScoreGrows(lo, w, row.depth);
    ScoreGrows(w, hi, row.depth);
  }

  lemma ScoreGrows(v: real, w: real, d: nat)
    requires v <= w
    ensures ScoreAt(v, d) <= ScoreAt(w, d)
  {
    Fraction(v, w, (1 + d) as real, (1 + d) as real);
  }
}
