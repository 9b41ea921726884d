/**
 Where depths stop being distances: two chains of edges, one from a light seed and one from
 a heavy seed, that meet in a node the heavy seed reaches one step later.
 */
module QueryChain {
  import opened GraphWalks
  import opened QueryGraph
  import opened QueryHistory
  import opened QueryTraversal
  import opened QueryExactness

  function Light(n: nat): Id {
    "x" + seq(n, _ => 'a')
  }

  function Heavy(n: nat): Id {
    "y" + seq(n, _ => 'a')
  }

  lemma NamesApart(m: nat, n: nat)
    ensures Light(m) != Heavy(n)
    ensures m != n ==> Light(m) != Light(n) && Heavy(m) != Heavy(n)
  {
    assert Light(m)[0] == 'x' && Heavy(n)[0] == 'y';
    assert |Light(m)| == m + 1 && |Light(n)| == n + 1 && |Heavy(m)| == m + 1 && |Heavy(n)| == n + 1;
  }

  function ChainEdge(target: Id): Edge {
    Edge(target, "", "", "")
  }

  /** Each node leads to the next of its chain; the last heavy one leads to the last light one. */
  function ChainEdges(depth: nat, id: Id): seq<Edge> {
    if id == "" then []
    else if |id| < depth then [ChainEdge(id + "a")]
    else if |id| == depth && id[0] == 'y' then [ChainEdge("x" + id[1..])]
    else []
  }

  function ChainQuery(lo: real, hi: real, depth: nat): (q: Query)
    ensures q.follow == ["callees"] && q.depth == depth && q.limit == 2 * depth
  {
    Query(Repo((kind: string, id: Id) => ChainEdges(depth, id), (id: Id) => true),
          [Seed(Light(0), lo), Seed(Heavy(0), hi)], ["callees"], depth, 2 * depth, "", false)
  }

  lemma ChainSteps(depth: nat, n: nat)
    requires n < depth
    ensures ChainEdges(depth, Light(n)) == if n + 1 < depth then [ChainEdge(Light(n + 1))] else []
    ensures ChainEdges(depth, Heavy(n)) == [ChainEdge(if n + 1 < depth then Heavy(n + 1) else Light(n))]
  {
    assert Light(n) + "a" == Light(n + 1);
    assert Heavy(n) + "a" == Heavy(n + 1);
    assert "x" + Heavy(n)[1..] == Light(n);
  }

  function LightNode(n: nat): FrontierNode {
    FrontierNode(Light(n), Light(0))
  }

  function HeavyNode(n: nat): FrontierNode {
    FrontierNode(Heavy(n), Heavy(0))
  }

  /** The frontier of step `n`, in either order. */
  ghost predicate IsChain(frontier: seq<FrontierNode>, n: nat) {
    DistinctIds(frontier) && forall fn :: fn in frontier <==> fn == LightNode(n) || fn == HeavyNode(n)
  }

  ghost predicate ChainRun(trace: Trace) {
    forall n :: 0 <= n < |trace| ==> IsChain(trace[n], n)
  }

  function LightHit(lo: real, n: nat): Hit {
    Hit(Light(0), ScoreAt(lo, n + 1), n + 1, ChainEdge(Light(n + 1)))
  }

  function HeavyHit(hi: real, n: nat, target: Id): Hit {
    Hit(Heavy(0), ScoreAt(hi, n + 1), n + 1, ChainEdge(target))
  }

  /** The hits of step `n`: the two next nodes, or at the end the last light node, from the heavy side. */
  predicate IsChainHit(lo: real, hi: real, depth: nat, n: nat, h: Hit) {
    if n + 1 < depth then h == LightHit(lo, n) || h == HeavyHit(hi, n, Heavy(n + 1))
    else h == HeavyHit(hi, n, Light(n))
  }

  // ----- what any run of the query does

  lemma NodeHits(lo: real, hi: real, depth: nat, n: nat)
    requires n < depth
    ensures var q := ChainQuery(lo, hi, depth);
      && HitsOf(q, KindAt(q.follow, n), LightNode(n), n + 1) == (if n + 1 < depth then [LightHit(lo, n)] else [])
      && HitsOf(q, KindAt(q.follow, n), HeavyNode(n), n + 1) == [HeavyHit(hi, n, if n + 1 < depth then Heavy(n + 1) else Light(n))]
  {
    hide ScoreAt, ChainEdges;
    var q := ChainQuery(lo, hi, depth);
    ChainSteps(depth, n);
    NamesApart(0, 0);
    assert WeightOf(q.seeds, Light(0)) == lo;
    assert q.seeds[1..][0] == Seed(Heavy(0), hi);
    assert WeightOf(q.seeds, Heavy(0)) == WeightOf(q.seeds[1..], Heavy(0)) == hi;
  }

  lemma ChainHits(lo: real, hi: real, depth: nat, n: nat, frontier: seq<FrontierNode>, h: Hit)
    requires n < depth && IsChain(frontier, n)
    ensures h in StepHits(ChainQuery(lo, hi, depth), n, frontier) <==> IsChainHit(lo, hi, depth, n, h)
  {
    hide ScoreAt, ChainEdges, Light, Heavy;
    var q := ChainQuery(lo, hi, depth);
    var via := KindAt(q.follow, n);
    AllHitsIff(q, via, frontier, n + 1, h);
    NodeHits(lo, hi, depth, n);
    hide HitsOf, ChainQuery;
    assert LightNode(n) in frontier && HeavyNode(n) in frontier;
    var x :| 0 <= x < |frontier| && frontier[x] == LightNode(n);
    var y :| 0 <= y < |frontier| && frontier[y] == HeavyNode(n);
    if i :| 0 <= i < |frontier| && h in HitsOf(q, via, frontier[i], n + 1) {
      assert frontier[i] in frontier;
    }
    if IsChainHit(lo, hi, depth, n, h) {
      assert h in HitsOf(q, via, frontier[x], n + 1) || h in HitsOf(q, via, frontier[y], n + 1);
    }
  }

  /** A run over the chains contributes exactly the chain hits of its steps. */
  lemma {:induction false} RunHits(lo: real, hi: real, depth: nat, trace: Trace, h: Hit)
    requires ChainRun(trace) && |trace| <= depth
    ensures h in Contributed(ChainQuery(lo, hi, depth), trace) <==>
      1 <= h.depth <= |trace| && IsChainHit(lo, hi, depth, h.depth - 1, h)
  {
    hide StepHits, IsChain, ScoreAt, Light, Heavy;
    if trace != [] {
      var n := |trace| - 1;
      assert forall k :: 0 <= k < n ==> trace[..n][k] == trace[k];
      RunHits(lo, hi, depth, trace[..n], h);
      ChainHits(lo, hi, depth, n, trace[n], h);
    }
  }

  /** No step before `n` reaches the `n`-th nodes. */
  lemma ChainIsNew(lo: real, hi: real, depth: nat, trace: Trace, n: nat)
    requires ChainRun(trace) && |trace| < n < depth
    ensures var q := ChainQuery(lo, hi, depth);
      IsNew(q, Contributed(q, trace), Light(n)) && IsNew(q, Contributed(q, trace), Heavy(n))
  {
    hide ScoreAt, Light, Heavy, ChainEdges, Contributed, IsChain;
    var q := ChainQuery(lo, hi, depth);
    NamesApart(n, 0);
    NamesApart(0, n);
    forall h | h in Contributed(q, trace) ensures h.edge.target != Light(n) && h.edge.target != Heavy(n) {
      RunHits(lo, hi, depth, trace, h);
      NamesApart(h.depth, n);
      NamesApart(n, h.depth);
    }
  }

  /** The hits are on the two nodes `n`, each won from its own side. */
  ghost predicate TwoTargets(hits: seq<Hit>, n: nat, t: Id) {
    && (HitOn(hits, t) <==> t == Light(n) || t == Heavy(n))
    && (t == Light(n) ==> Winner(hits, t).seed == Light(0))
    && (t == Heavy(n) ==> Winner(hits, t).seed == Heavy(0))
  }

  /** The hits of an inner step, as a set: one on each next node. */
  lemma InnerHits(lo: real, hi: real, depth: nat, n: nat, frontier: seq<FrontierNode>, t: Id)
    requires n + 1 < depth && IsChain(frontier, n)
    ensures TwoTargets(StepHits(ChainQuery(lo, hi, depth), n, frontier), n + 1, t)
  {
    hide ScoreAt, StepHits, ChainQuery, Light, Heavy, IsChain;
    var hits := StepHits(ChainQuery(lo, hi, depth), n, frontier);
    forall h ensures h in hits <==> h == LightHit(lo, n) || h == HeavyHit(hi, n, Heavy(n + 1)) {
      ChainHits(lo, hi, depth, n, frontier, h);
    }
    NamesApart(n + 1, n + 1);
    assert LightHit(lo, n) in hits && HeavyHit(hi, n, Heavy(n + 1)) in hits;
    if HitOn(hits, t) { WinnerIn(hits, Winner(hits, t)); }
  }

  /** The next frontier of a run over the chains is the chains' next nodes. */
  lemma NextIsChain(lo: real, hi: real, depth: nat, trace: Trace, frontier: seq<FrontierNode>)
    requires ChainRun(trace) && trace != [] && |trace| < depth && Continues(ChainQuery(lo, hi, depth), trace, frontier)
    ensures IsChain(frontier, |trace|)
  {
    var q, n := ChainQuery(lo, hi, depth), |trace|;
    assert IsChain(trace[n - 1], n - 1) && ChainRun(trace[..n - 1]);
    var hits := StepHits(q, n - 1, trace[n - 1]);
    forall t ensures TwoTargets(hits, n, t) {
      InnerHits(lo, hi, depth, n - 1, trace[n - 1], t);
    }
    ChainIsNew(lo, hi, depth, trace[..n - 1], n);
    assert q.repo.locate(Light(n)) && q.repo.locate(Heavy(n));
    SuccessorIsChain(q, Contributed(q, trace[..n - 1]), hits, frontier, n);
  }

  lemma SuccessorIsChain(q: Query, past: seq<Hit>, hits: seq<Hit>, next: seq<FrontierNode>, n: nat)
    requires Successor(q, past, hits, next)
    requires IsNew(q, past, Light(n)) && IsNew(q, past, Heavy(n)) && q.repo.locate(Light(n)) && q.repo.locate(Heavy(n))
    requires forall t :: TwoTargets(hits, n, t)
    ensures IsChain(next, n)
  {
    hide IsNew, HitOn, Light, Heavy;
    assert TwoTargets(hits, n, Light(n)) && TwoTargets(hits, n, Heavy(n));
    assert InFrontier(next, Light(n)) && InFrontier(next, Heavy(n));
    assert forall i :: 0 <= i < |next| ==> TwoTargets(hits, n, next[i].id);
    assert forall i :: 0 <= i < |next| ==> next[i] in next;
  }

  /** The last step reaches nothing new. */
  lemma NothingLeft(lo: real, hi: real, depth: nat, trace: Trace, frontier: seq<FrontierNode>)
    requires ChainRun(trace) && |trace| == depth >= 2 && Continues(ChainQuery(lo, hi, depth), trace, frontier)
    ensures frontier == []
  {
    hide ScoreAt, StepHits, Light, Heavy, Contributed, ChainQuery, IsChain;
    var q, n := ChainQuery(lo, hi, depth), depth - 1;
    var past, hits := Contributed(q, trace[..n]), StepHits(q, n, trace[n]);
    assert ChainRun(trace[..n]);
    RunHits(lo, hi, depth, trace[..n], LightHit(lo, depth - 2));
    assert HitOn(past, Light(n));
    forall t | HitOn(hits, t) ensures t == Light(n) {
      var h :| h in hits && h.edge.target == t;
      ChainHits(lo, hi, depth, n, trace[n], h);
    }
    NothingNew(q, past, hits, frontier, Light(n));
  }

  lemma NothingNew(q: Query, past: seq<Hit>, hits: seq<Hit>, next: seq<FrontierNode>, t: Id)
    requires Successor(q, past, hits, next) && HitOn(past, t) && forall u :: HitOn(hits, u) ==> u == t
    ensures next == []
  {
    hide HitOn;
    if next != [] {
      var id := next[0].id;
      assert false;
    }
  }

  /** Any run of the query goes along the chains. */
  lemma {:induction false} RunIsChain(lo: real, hi: real, depth: nat, trace: Trace)
    requires Follows(ChainQuery(lo, hi, depth), trace) && |trace| <= depth
    ensures ChainRun(trace)
  {
    hide IsChain, Continues, Follows, ChainQuery;
    if trace != [] {
      var n := |trace| - 1;
      FollowsInit(ChainQuery(lo, hi, depth), trace);
      RunIsChain(lo, hi, depth, trace[..n]);
      assert forall k :: 0 <= k < n ==> trace[..n][k] == trace[k];
      if n == 0 {
        SeedsAreChain(lo, hi, depth);
        ContinuesFirst(ChainQuery(lo, hi, depth), trace[n]);
      } else { NextIsChain(lo, hi, depth, trace[..n], trace[n]); }
    }
  }

  lemma SeedsAreChain(lo: real, hi: real, depth: nat)
    ensures IsChain(SeedNodes(ChainQuery(lo, hi, depth).seeds), 0)
  {
    NamesApart(0, 0);
    assert SeedNodes(ChainQuery(lo, hi, depth).seeds) == [LightNode(0), HeavyNode(0)];
  }

  lemma {:induction false} DistinctNodesFit(frontier: seq<FrontierNode>, ids: set<Id>)
    requires DistinctIds(frontier) && forall i :: 0 <= i < |frontier| ==> frontier[i].id in ids
    ensures |frontier| <= |ids|
    decreases |frontier|
  {
    if frontier != [] {
      var n := |frontier| - 1;
      DistinctNodesFit(frontier[..n], ids - {frontier[n].id});
    }
  }

  lemma ChainIsShort(frontier: seq<FrontierNode>, n: nat)
    requires IsChain(frontier, n)
    ensures frontier != [] && |frontier| <= 2
  {
    hide Light, Heavy;
    assert LightNode(n) in frontier;
    assert forall i :: 0 <= i < |frontier| ==> frontier[i] in frontier;
    DistinctNodesFit(frontier, {Light(n), Heavy(n)});
  }

  lemma {:induction false} RunIsShort(trace: Trace)
    requires ChainRun(trace)
    ensures |TraceIds(trace)| <= 2 * |trace|
  {
    hide IsChain;
    if trace != [] {
      var n := |trace| - 1;
      assert forall k :: 0 <= k < n ==> trace[..n][k] == trace[k];
      RunIsShort(trace[..n]);
      ChainIsShort(trace[n], n);
    }
  }

  /** What follows a run, by its length. */
  lemma RunThenLeft(lo: real, hi: real, depth: nat, trace: Trace, left: seq<FrontierNode>)
    requires depth >= 2 && |trace| <= depth
    requires Follows(ChainQuery(lo, hi, depth), trace) && Continues(ChainQuery(lo, hi, depth), trace, left)
    ensures ChainRun(trace) && |TraceIds(trace)| + |left| <= 2 * depth
    ensures |trace| == depth <==> left == []
  {
    hide ChainRun, IsChain, TraceIds, Follows, Continues;
    RunIsChain(lo, hi, depth, trace);
    RunIsShort(trace);
    if |trace| == depth {
      NothingLeft(lo, hi, depth, trace, left);
    } else {
      if trace == [] {
        SeedsAreChain(lo, hi, depth);
        assert left == SeedNodes(ChainQuery(lo, hi, depth).seeds) by { ContinuesFirst(ChainQuery(lo, hi, depth), left); }
      } else {
        NextIsChain(lo, hi, depth, trace, left);
      }
      ChainIsShort(left, |trace|);
    }
  }

  lemma ContinuesFirst(q: Query, frontier: seq<FrontierNode>)
    requires q.follow != [] && Continues(q, [], frontier)
    ensures frontier == SeedNodes(q.seeds)
  {
  }

  // ----- how many rows there can be

  ghost function ChainTargets(depth: nat): (ids: set<Id>)
    ensures |ids| <= 2 * depth
  {
    if depth == 0 then {}
    else
      assert |{Light(depth - 1), Heavy(depth - 1)}| <= 2;
      assert |ChainTargets(depth - 1) + {Light(depth - 1), Heavy(depth - 1)}| <= |ChainTargets(depth - 1)| + 2;
      ChainTargets(depth - 1) + {Light(depth - 1), Heavy(depth - 1)}
  }

  lemma {:induction false} ChainTargetsHold(depth: nat, k: nat)
    requires k < depth
    ensures Light(k) in ChainTargets(depth) && Heavy(k) in ChainTargets(depth)
  {
    if k < depth - 1 { ChainTargetsHold(depth - 1, k); }
  }

  lemma {:induction false} DistinctRowsFit(rows: seq<Row>, targets: set<Id>)
    requires DistinctTargets(rows) && forall i :: 0 <= i < |rows| ==> rows[i].edge.target in targets
    ensures |rows| <= |targets|
    decreases |rows|
  {
    if rows != [] {
      var n := |rows| - 1;
      DistinctRowsFit(rows[..n], targets - {rows[n].edge.target});
    }
  }

  /** Fewer rows than the limit allows: the seeds have none. */
  lemma ChainRowsFit(lo: real, hi: real, depth: nat, trace: Trace, rows: seq<Row>)
    requires depth >= 2 && ChainRun(trace) && |trace| <= depth
    requires DistinctTargets(rows) && RowsFollow(ChainQuery(lo, hi, depth), trace, rows)
    ensures |rows| < ChainQuery(lo, hi, depth).limit
  {
    hide ScoreAt, Light, Heavy, RowOf, Contributed, IsChain, DistinctTargets, BestRow, ChainEdges;
    var q := ChainQuery(lo, hi, depth);
    var targets := ChainTargets(depth) - {Light(0)};
    forall i | 0 <= i < |rows| ensures rows[i].edge.target in targets {
      var t := rows[i].edge.target;
      RowOfIsBest(q, trace, t);
      var h :| h in Contributed(q, trace) && h.edge.target == t;
      RunHits(lo, hi, depth, trace, h);
      assert q.seeds[0].id == Light(0);
      ChainTargetsHold(depth, if h.depth < depth then h.depth else depth - 1);
    }
    DistinctRowsFit(rows, targets);
    ChainTargetsHold(depth, 0);
    assert |targets| == |ChainTargets(depth)| - 1;
  }

  // ----- the row of the meeting node

  lemma MeetingScores(lo: real, hi: real, depth: nat)
    requires depth >= 2 && !Steady(lo, hi, depth)
    ensures ScoreAt(hi, depth) > ScoreAt(lo, depth - 1)
  {
    assert (1 + depth) as real == (depth + 1) as real;
    Fraction(hi, lo, (1 + depth) as real, depth as real);
  }

  /** The meeting node is hit twice, and the second hit has the larger score. */
  lemma MeetingRow(lo: real, hi: real, depth: nat, trace: Trace, row: Row)
    requires depth >= 2 && !Steady(lo, hi, depth) && ChainRun(trace) && |trace| == depth
    requires BestRow(Contributed(ChainQuery(lo, hi, depth), trace), row) && row.edge.target == Light(depth - 1)
    ensures row.depth == depth
  {
    hide ScoreAt, Contributed, Steady, Light, Heavy, IsChain, ChainQuery;
    var hits := Contributed(ChainQuery(lo, hi, depth), trace);
    var h :| h in hits && h.edge.target == row.edge.target && h.depth == row.depth && h.score == row.score;
    RunHits(lo, hi, depth, trace, h);
    NamesApart(h.depth, depth - 1);
    NamesApart(depth - 1, h.depth);
    RunHits(lo, hi, depth, trace, HeavyHit(hi, depth - 1, Light(depth - 1)));
    MeetingScores(lo, hi, depth);
  }

  /** In every answer to the query the meeting node's row gives its depth as one more than its distance. */
  lemma ChainOverstates(lo: real, hi: real, depth: nat, trace: Trace, rows: seq<Row>) returns (i: nat)
    requires !Steady(lo, hi, depth) && Answer(ChainQuery(lo, hi, depth), trace, rows)
    ensures i < |rows| && rows[i].edge.target == Light(depth - 1) && rows[i].depth == depth
    ensures var q := ChainQuery(lo, hi, depth);
      WalkFromSeeds(q.repo, q.follow, SeedIds(q.seeds), Light(depth - 1), depth - 1)
  {
    hide RowOf, Steady, Contributed, BestRow, Follows, TraceOk, HitOn, HasRow, IsChain, ChainRun, Continues, TraceIds, DistinctTargets,
      RowsFollow, RowsComplete, ScoreAt, Light, Heavy, ChainEdges, WalkFromSeeds;
    assert depth >= 2 by { UnsteadyIsDeep(lo, hi, depth); }
    var q := ChainQuery(lo, hi, depth);
    AnswerIsLong(lo, hi, depth, trace, rows);
    UnfilteredRows(q, trace, rows);
    RunHits(lo, hi, depth, trace, LightHit(lo, depth - 2));
    NamesApart(depth - 1, 0);
    i := RowOfMeeting(q, trace, rows, LightHit(lo, depth - 2));
    MeetingRow(lo, hi, depth, trace, rows[i]);
    MeetingWalk(q, trace, depth);
  }

  lemma AnswerIsLong(lo: real, hi: real, depth: nat, trace: Trace, rows: seq<Row>)
    requires depth >= 2 && Answer(ChainQuery(lo, hi, depth), trace, rows)
    ensures ChainRun(trace) && |trace| == depth
  {
    hide RowsFollow, RowsComplete, Follows, TraceOk, ChainRun, Continues, TraceIds, DistinctTargets, ChainQuery;
    RunIsChain(lo, hi, depth, trace);
    if |trace| < depth { RunThenLeft(lo, hi, depth, trace, []); }
  }

  lemma UnsteadyIsDeep(lo: real, hi: real, depth: nat)
    requires !Steady(lo, hi, depth)
    ensures depth >= 2
  {
  }

  lemma RowOfMeeting(q: Query, trace: Trace, rows: seq<Row>, h: Hit) returns (i: nat)
    requires q.follow != [] && h in Contributed(q, trace) && h.edge.target !in SeedIds(q.seeds)
    requires forall t :: HasRow(rows, t) <==> t !in SeedIds(q.seeds) && HitOn(Contributed(q, trace), t)
    ensures i < |rows| && rows[i].edge.target == h.edge.target
  {
    assert HitOn(Contributed(q, trace), h.edge.target);
    assert HasRow(rows, h.edge.target);
    i :| 0 <= i < |rows| && rows[i].edge.target == h.edge.target;
  }

  lemma MeetingWalk(q: Query, trace: Trace, depth: nat)
    requires q.follow != [] && depth >= 2 && |trace| == depth && ChainRun(trace) && TraceOk(q, trace)
    ensures WalkFromSeeds(q.repo, q.follow, SeedIds(q.seeds), Light(depth - 1), depth - 1)
  {
    hide WalkOf, Light, Heavy;
    assert IsChain(trace[depth - 1], depth - 1);
    assert LightNode(depth - 1) in trace[depth - 1];
    var k :| 0 <= k < |trace[depth - 1]| && trace[depth - 1][k] == LightNode(depth - 1);
    assert FrontierNodeOk(q, trace[depth - 1][k], depth - 1);
  }

  // ----- there is such an answer

  function ChainFrontier(n: nat): seq<FrontierNode> {
    [LightNode(n), HeavyNode(n)]
  }

  function ChainTrace(k: nat): Trace {
    seq(k, n requires 0 <= n < k => ChainFrontier(n))
  }

  lemma ChainTraceIsRun(k: nat)
    ensures ChainRun(ChainTrace(k))
  {
    hide Light, Heavy;
    forall n | 0 <= n < k ensures IsChain(ChainTrace(k)[n], n) { NamesApart(n, n); }
  }

  /** The chains, step by step, are what the traversal scans. */
  lemma ChainContinues(lo: real, hi: real, depth: nat, n: nat)
    requires n < depth
    ensures Continues(ChainQuery(lo, hi, depth), ChainTrace(n), ChainFrontier(n))
  {
    var q := ChainQuery(lo, hi, depth);
    if n == 0 {
      assert ChainFrontier(0) == SeedNodes(q.seeds);
    } else {
      var trace := ChainTrace(n);
      ChainTraceIsRun(n);
      assert IsChain(trace[n - 1], n - 1) && ChainRun(trace[..n - 1]);
      var hits := StepHits(q, n - 1, trace[n - 1]);
      forall t ensures TwoTargets(hits, n, t) { InnerHits(lo, hi, depth, n - 1, trace[n - 1], t); }
      ChainIsNew(lo, hi, depth, trace[..n - 1], n);
      assert q.repo.locate(Light(n)) && q.repo.locate(Heavy(n));
      ChainSucceeds(q, Contributed(q, trace[..n - 1]), hits, n);
    }
  }

  lemma ChainSucceeds(q: Query, past: seq<Hit>, hits: seq<Hit>, n: nat)
    requires IsNew(q, past, Light(n)) && IsNew(q, past, Heavy(n)) && q.repo.locate(Light(n)) && q.repo.locate(Heavy(n))
    requires forall t :: TwoTargets(hits, n, t)
    ensures Successor(q, past, hits, ChainFrontier(n))
  {
    hide IsNew, HitOn, Light, Heavy;
    NamesApart(n, n);
    assert TwoTargets(hits, n, Light(n)) && TwoTargets(hits, n, Heavy(n));
    var next := ChainFrontier(n);
    assert next[0].id == Light(n) && next[1].id == Heavy(n);
    forall t | HitOn(hits, t) ensures InFrontier(next, t) { assert TwoTargets(hits, n, t); }
  }

  /** Each chain node has a walk from its seed. */
  lemma {:induction false} ChainWalks(lo: real, hi: real, depth: nat, n: nat)
    requires n < depth
    ensures FrontierNodesOk(ChainQuery(lo, hi, depth), ChainFrontier(n), n)
  {
    var q := ChainQuery(lo, hi, depth);
    hide WalkOf;
    assert q.seeds[0].id == Light(0) && q.seeds[1].id == Heavy(0);
    if n == 0 {
      WalkOfNothing(q.repo, q.follow, Light(0));
      WalkOfNothing(q.repo, q.follow, Heavy(0));
    } else {
      ChainWalks(lo, hi, depth, n - 1);
      ChainSteps(depth, n - 1);
      var before := ChainFrontier(n - 1);
      assert FrontierNodeOk(q, before[0], n - 1) && FrontierNodeOk(q, before[1], n - 1);
      assert q.repo.scan(KindAt(q.follow, n - 1), Light(n - 1))[0].target == Light(n);
      assert q.repo.scan(KindAt(q.follow, n - 1), Heavy(n - 1))[0].target == Heavy(n);
      WalkExtends(q.repo, q.follow, Light(0), Light(n - 1), Light(n), n - 1);
      WalkExtends(q.repo, q.follow, Heavy(0), Heavy(n - 1), Heavy(n), n - 1);
    }
  }

  lemma ChainRuns(lo: real, hi: real, depth: nat)
    ensures var q := ChainQuery(lo, hi, depth);
      TraceOk(q, ChainTrace(depth)) && Follows(q, ChainTrace(depth))
  {
    var q := ChainQuery(lo, hi, depth);
    hide Continues, FrontierNodeOk, Light, Heavy;
    forall n | 0 <= n < depth ensures Continues(q, ChainTrace(depth)[..n], ChainTrace(depth)[n]) {
      assert ChainTrace(depth)[..n] == ChainTrace(n);
      ChainContinues(lo, hi, depth, n);
    }
    forall n, i | 0 <= n < depth && 0 <= i < |ChainTrace(depth)[n]| ensures FrontierNodeOk(q, ChainTrace(depth)[n][i], n) {
      ChainWalks(lo, hi, depth, n);
    }
  }

  /** The rows any run gives, each target once. */
  lemma {:induction false} RowsForHits(q: Query, trace: Trace, hits: seq<Hit>) returns (rows: seq<Row>)
    requires q.follow != [] && Unfiltered(q)
    ensures RowsFollow(q, trace, rows) && DistinctTargets(rows)
    ensures forall h :: h in hits && RowOf(q, trace, h.edge.target).Some? ==> HasRow(rows, h.edge.target)
  {
    hide RowOf, Unfiltered, BestRow, Contributed;
    if hits == [] {
      rows := [];
    } else {
      var init, last := hits[..|hits| - 1], hits[|hits| - 1];
      var before := RowsForHits(q, trace, init);
      var t := last.edge.target;
      rows := before;
      if RowOf(q, trace, t).Some? && !HasRow(before, t) {
        RowOfIsBest(q, trace, t);
        rows := before + [RowOf(q, trace, t).value];
        assert rows[|before|].edge.target == t;
      }
      forall h | h in hits && RowOf(q, trace, h.edge.target).Some? ensures HasRow(rows, h.edge.target) {
        assert h in init || h == last;
        if HasRow(before, h.edge.target) {
          var i :| 0 <= i < |before| && before[i].edge.target == h.edge.target;
          assert rows[i].edge.target == h.edge.target;
        }
      }
    }
  }

  lemma RunHasRows(q: Query, trace: Trace) returns (rows: seq<Row>)
    requires q.follow != [] && Unfiltered(q)
    ensures RowsFollow(q, trace, rows) && RowsComplete(q, trace, rows) && DistinctTargets(rows)
  {
    hide RowOf, Unfiltered, Contributed, BestRow, DistinctTargets;
    rows := RowsForHits(q, trace, Contributed(q, trace));
    forall t | RowOf(q, trace, t).Some? ensures HasRow(rows, t) {
      RowOfIsBest(q, trace, t);
      var h :| h in Contributed(q, trace) && h.edge.target == t;
    }
  }

  lemma ChainIsPlain(lo: real, hi: real, depth: nat)
    ensures var q := ChainQuery(lo, hi, depth);
      Plain(q) && DistinctSeeds(q.seeds) && (lo <= hi ==> WeightsWithin(q, lo, hi))
  {
    NamesApart(0, 0);
  }

  /**
   For weights that are not steady there is a query with just these two, and an answer to it
   within the limit and the visit cap, in which a row overstates its node's distance.
   */
  lemma HeavySeedOverstates(lo: real, hi: real, depth: nat) returns (q: Query, trace: Trace, rows: seq<Row>, i: nat)
    requires lo <= hi && !Steady(lo, hi, depth) && 2 * depth <= MAX_VISITED
    ensures Plain(q) && q.depth == depth && DistinctSeeds(q.seeds) && WeightsWithin(q, lo, hi)
    ensures Answer(q, trace, rows)
    ensures i < |rows| && !Distance(q.repo, q.follow, SeedIds(q.seeds), rows[i].edge.target, rows[i].depth)
  {
    hide RowOf, Steady, Contributed, BestRow, Follows, TraceOk, HitOn, HasRow, DistinctSeeds, TraceIds, DistinctTargets, RowsFollow,
      RowsComplete, ChainRun, ScoreAt, Light, Heavy, ChainEdges, WeightsWithin, OneKind, Continues, ChainQuery, ChainFrontier;
    assert depth >= 2 by { UnsteadyIsDeep(lo, hi, depth); }
    q, trace := ChainQuery(lo, hi, depth), ChainTrace(depth);
    ChainIsPlain(lo, hi, depth);
    ChainRuns(lo, hi, depth);
    ChainTraceIsRun(depth);
    RunIsShort(trace);
    rows := RunHasRows(q, trace);
    ChainRowsFit(lo, hi, depth, trace, rows);
    i := ChainOverstates(lo, hi, depth, trace, rows);
  }

  /** Every row of every untruncated answer, with weights between the two bounds and this depth, has its node's distance as depth. */
  ghost predicate DepthsAreDistances(lo: real, hi: real, depth: nat) {
    forall q: Query, trace: Trace, rows: seq<Row>, i ::
      Plain(q) && q.depth == depth && DistinctSeeds(q.seeds) && WeightsWithin(q, lo, hi) && Answer(q, trace, rows) && 0 <= i < |rows| ==>
        Distance(q.repo, q.follow, SeedIds(q.seeds), rows[i].edge.target, rows[i].depth)
  }

  /**
   Steady bounds make depths distances, at any depth; up to the depth the visit cap admits, only
   they do. (The code admits no depth above five.)
   */
  lemma DepthIsDistanceIff(lo: real, hi: real, depth: nat)
    requires lo <= hi
    ensures Steady(lo, hi, depth) ==> DepthsAreDistances(lo, hi, depth)
    ensures 2 * depth <= MAX_VISITED ==> (Steady(lo, hi, depth) <==> DepthsAreDistances(lo, hi, depth))
  {
    hide Distance, Answer, Steady, DistinctSeeds, WeightsWithin, OneKind;
    if Steady(lo, hi, depth) {
      forall q: Query, trace: Trace, rows: seq<Row>, i |
        Plain(q) && q.depth == depth && DistinctSeeds(q.seeds) && WeightsWithin(q, lo, hi) && Answer(q, trace, rows) && 0 <= i < |rows|
        ensures Distance(q.repo, q.follow, SeedIds(q.seeds), rows[i].edge.target, rows[i].depth)
      {
        RowsAreAtTheirDistance(q, trace, rows);
      }
    } else if 2 * depth <= MAX_VISITED {
      var q, trace, rows, i := HeavySeedOverstates(lo, hi, depth);
    }
  }

  /** Equal weights are steady at every depth exactly when they are not negative. */
  lemma EqualWeightsSteadyIff(w: real, depth: nat)
    ensures Steady(w, w, depth) <==> w >= 0.0 || depth <= 1
  {
    assert w * (depth + 1) as real == w * depth as real + w;
  }

  // ----- the code returns such an answer

  /**
   The traversal of the two chains is not truncated, and its row for the meeting node gives a
   depth that is not the node's distance. The depth is bounded by what the visit cap admits.
   */
  method TraverseChains(lo: real, hi: real, depth: nat) returns (rows: seq<Row>, truncated: bool, ghost i: nat)
    requires lo <= hi && !Steady(lo, hi, depth) && 2 * depth <= MAX_VISITED
    ensures !truncated
    ensures i < |rows| && rows[i].edge.target == Light(depth - 1) && rows[i].depth == depth
    ensures var q := ChainQuery(lo, hi, depth);
      !Distance(q.repo, q.follow, SeedIds(q.seeds), rows[i].edge.target, rows[i].depth)
  {
    hide Steady, RowOf, Continues, TraceIds, TraceOk, Credited, IsChain, RowOk, RowsFollow, RowsComplete, NoRepeats, BestRow, HitOn, HasRow,
      ScoreAt, Light, Heavy, DistinctTargets, ChainRun, Follows, ChainEdges;
    assert depth >= 2 by { UnsteadyIsDeep(lo, hi, depth); }
    var q := ChainQuery(lo, hi, depth);
    ChainIsPlain(lo, hi, depth);
    var visited, seedScores, polls;
    ghost var scanned, trace, left;
    rows, visited, truncated, seedScores, polls, scanned, trace, left := BfsFromSeeds(q, (i: nat) => false);
    RunThenLeft(lo, hi, depth, trace, left);
    assert DistinctTargets(rows) by { RowsAreDistinct(q, seedScores, rows); }
    ChainRowsFit(lo, hi, depth, trace, rows);
    assert !truncated;
    i := ChainOverstates(lo, hi, depth, trace, rows);
  }

  lemma RowsAreDistinct(q: Query, seedScores: map<Id, real>, rows: seq<Row>)
    requires q.follow != [] && RowsOk(q, seedScores, rows)
    ensures DistinctTargets(rows)
  {
    hide RowOk;
  }
}
