/** The traversal itself: the loop over steps, and what its answer promises. */
module QueryTraversal {
  import opened GraphWalks
  import opened QueryGraph
  import opened QueryHistory

  /** Everything the loop over steps keeps true. */
  ghost predicate LoopInvariant(q: Query, step: nat, frontier: seq<FrontierNode>, seen: set<Id>, rows: seq<Row>,
      byNode: map<Id, RowBest>, seedScores: map<Id, real>, scanned: seq<Id>)
    requires q.follow != []
  {
    && FrontierOk(q, frontier, step, scanned, seen)
    && RowsOk(q, seedScores, rows)
    && Consistent(rows, byNode)
  }

  ghost predicate DistinctSeeds(seeds: seq<Seed>) {
    forall i, j :: 0 <= i < j < |seeds| ==> seeds[i].id != seeds[j].id
  }

  ghost predicate NoRepeats(ids: seq<Id>) {
    forall i, j :: 0 <= i < j < |ids| ==> ids[i] != ids[j]
  }

  /** The seeds as the first frontier. */
  method SeedFrontier(q: Query) returns (frontier: seq<FrontierNode>, seen: set<Id>)
    requires q.follow != [] && DistinctSeeds(q.seeds)
    ensures frontier == SeedNodes(q.seeds) && seen == SeedIds(q.seeds)
    ensures LoopInvariant(q, 0, frontier, seen, [], map[], map[], [])
  {
    hide LoopInvariant;
    frontier, seen := [], {};
    for i := 0 to |q.seeds|
      invariant |frontier| == i
      invariant forall k :: 0 <= k < i ==> frontier[k] == FrontierNode(q.seeds[k].id, q.seeds[k].id)
      invariant seen == set k | 0 <= k < i :: q.seeds[k].id
    {
      seen := seen + {q.seeds[i].id};
      frontier := frontier + [FrontierNode(q.seeds[i].id, q.seeds[i].id)];
    }
    SeedsStart(q, frontier, seen);
  }

  lemma SeedsStart(q: Query, frontier: seq<FrontierNode>, seen: set<Id>)
    requires q.follow != [] && DistinctSeeds(q.seeds)
    requires |frontier| == |q.seeds| && seen == SeedIds(q.seeds)
    requires forall k :: 0 <= k < |frontier| ==> frontier[k] == FrontierNode(q.seeds[k].id, q.seeds[k].id)
    ensures LoopInvariant(q, 0, frontier, seen, [], map[], map[], [])
  {
    hide WalkOf;
    forall k | 0 <= k < |frontier| ensures FrontierNodeOk(q, frontier[k], 0) {
      WalkOfNothing(q.repo, q.follow, q.seeds[k].id);
    }
  }

  /** One full step keeps the invariant. */
  lemma StepKeepsInvariant(q: Query, step: nat, frontier: seq<FrontierNode>, hits: seq<Hit>, best: map<Id, Hit>,
      scores0: map<Id, real>, scores: map<Id, real>, scanned0: seq<Id>, scanned: seq<Id>, seen0: set<Id>, seen: set<Id>,
      next: seq<FrontierNode>, rows0: seq<Row>, byNode0: map<Id, RowBest>, rows: seq<Row>, byNode: map<Id, RowBest>, full: bool)
    requires q.follow != [] && step < q.depth
    requires LoopInvariant(q, step, frontier, seen0, rows0, byNode0, scores0, scanned0)
    requires hits == AllHits(q, KindAt(q.follow, step), frontier, step + 1)
    requires BestPerTarget(hits, best) && Credited(scores0, hits, scores)
    requires scanned == scanned0 + Ids(frontier)
    requires Expanded(q.repo, best, best.Keys, seen0, seen, next)
    requires RowsUpdated(q, KindAt(q.follow, step), best, best.Keys, seen0, rows0, byNode0, rows, byNode, full)
    requires Consistent(rows, byNode) && |rows| <= q.limit
    ensures LoopInvariant(q, step + 1, next, seen, rows, byNode, scores, scanned)
  {
    hide RowOk, FrontierNodeOk, AllHits, BestPerTarget, Credited, Expanded, RowsUpdated, Consistent, RowAt;
    StepKeepsFrontier(q, frontier, step, hits, best, scanned0, scanned, seen0, seen, next);
    ConsistentIsDistinct(rows, byNode);
    forall i | 0 <= i < |rows| ensures RowOk(q, scores, rows[i]) {
      StepKeepsRowOk(q, frontier, step, hits, best, scores0, scores, seen0, rows0, byNode0, rows, byNode, full, i);
    }
  }

  /** What the loop needs to know of its invariant. */
  lemma InvariantUses(q: Query, step: nat, frontier: seq<FrontierNode>, seen: set<Id>, rows: seq<Row>, byNode: map<Id, RowBest>,
      seedScores: map<Id, real>, scanned: seq<Id>)
    requires q.follow != []
    requires LoopInvariant(q, step, frontier, seen, rows, byNode, seedScores, scanned)
    ensures RowsOk(q, seedScores, rows) && Consistent(rows, byNode) && |rows| <= q.limit
    ensures FrontierNodesOk(q, frontier, step)
    ensures NoRepeats(scanned)
  {
    hide Consistent, RowOk, FrontierNodeOk;
  }

  lemma ScannedNoRepeats(q: Query, step: nat, frontier: seq<FrontierNode>, seen: set<Id>, rows: seq<Row>, byNode: map<Id, RowBest>,
      seedScores: map<Id, real>, scanned0: seq<Id>, scanned: seq<Id>)
    requires q.follow != []
    requires LoopInvariant(q, step, frontier, seen, rows, byNode, seedScores, scanned0)
    requires scanned <= scanned0 + Ids(frontier)
    ensures NoRepeats(scanned)
  {
    hide Consistent, RowsOk, FrontierNodeOk;
    ScannedStaysDistinct(frontier, scanned0, scanned);
  }

  lemma BestTargets(hits: seq<Hit>, best: map<Id, Hit>)
    requires BestPerTarget(hits, best)
    ensures forall t :: t in best ==> best[t].edge.target == t
  {
  }

  /**
   The traversal. `done(i)` is what the `i`-th look at the context finds, `polls` counts the
   looks, `scanned` lists the nodes scanned, `trace` the frontier of each step taken and `left`
   the frontier that follows. The answer is truncated only when the limit keeps a row out, when
   the visit cap leaves a node of `left` unscanned, by the look that ended the loop, or when the
   last look, after a run that had come to its end, finds the context done.
   */
  method BfsFromSeeds(q: Query, done: nat -> bool)
    returns (rows: seq<Row>, visited: nat, truncated: bool, seedScores: map<Id, real>, polls: nat,
      ghost scanned: seq<Id>, ghost trace: Trace, ghost left: seq<FrontierNode>)
    requires q.follow != [] && DistinctSeeds(q.seeds)
    ensures RowsOk(q, seedScores, rows)
    ensures visited == |scanned| <= 5000 && NoRepeats(scanned)
    ensures Accounted(q, trace, left, rows, seedScores, scanned)
    ensures Unfiltered(q) ==> forall i :: 0 <= i < |rows| ==> BestRow(Contributed(q, trace), rows[i])
    ensures 1 <= polls <= |trace| + |scanned| + 3 && (!truncated ==> polls == |trace| + |scanned| + 1)
    ensures forall i :: 0 <= i < polls - 2 ==> !done(i)
    ensures truncated ==>
      || (|rows| == q.limit && !RowsComplete(q, trace, rows))
      || (visited == 5000 && |scanned| < |TraceIds(trace)| + |left|)
      || (polls >= 2 && done(polls - 2))
      || (done(polls - 1) && Answer(q, trace, rows) && TraceIds(trace) == scanned)
    ensures !truncated ==> !Expired(done, polls) && Answer(q, trace, rows) && TraceIds(trace) == scanned
    ensures !truncated && Unfiltered(q) ==>
      forall t :: HasRow(rows, t) <==> t !in SeedIds(q.seeds) && HitOn(Contributed(q, trace), t)
  {
    hide History, Accounted, Answer, Continues, TraceIds, FrontierNodesOk, LoopInvariant, RowsOk, BestPerTarget, FirstBest, Credited,
      Expanded, RowsUpdated, Consistent, NoRepeats, DistinctSeeds, Expired, AllHits, BestRow, HitOn, HasRow, RowsComplete, SomeRowDropped;
    rows, visited, truncated, seedScores, polls, scanned, trace := [], 0, false, map[], 0, [], [];
    var byNode: map<Id, RowBest> := map[];
    var frontier, seen := SeedFrontier(q);
    left := frontier;
    var step := 0;
    NoHistory(q, seen);
    assert Continues(q, trace, frontier) by { FirstFrontier(q); }
    assert !Expired(done, polls) by { NoPolls(done); }
    InvariantUses(q, 0, frontier, seen, rows, byNode, seedScores, scanned);
    HistoryAccounts(q, trace, left, seen, rows, byNode, seedScores, scanned, truncated, scanned);
    while step < q.depth
      invariant step == |trace| <= q.depth && visited == |scanned| <= MAX_VISITED
      invariant LoopInvariant(q, step, frontier, seen, rows, byNode, seedScores, scanned)
      invariant History(q, trace, seen, rows, byNode, seedScores, scanned, truncated)
      invariant left == frontier && Continues(q, trace, left)
      invariant Consistent(rows, byNode) && RowsOk(q, seedScores, rows) && NoRepeats(scanned)
      invariant |rows| <= q.limit && (truncated ==> |rows| == q.limit)
      invariant truncated <==> !RowsComplete(q, trace, rows)
      invariant Accounted(q, trace, left, rows, seedScores, scanned) && TraceIds(trace) == scanned
      invariant !Expired(done, polls) && polls == |trace| + |scanned|
      invariant !truncated && step == q.depth ==> Answer(q, trace, rows)
      decreases q.depth - step
    {
      polls := polls + 1;
      PollOnce(done, polls);
      if done(polls - 1) {
        truncated := true;
        break;
      }
      var via := KindAt(q.follow, step);
      var hits, cut;
      ghost var scanned0 := scanned;
      InvariantUses(q, step, frontier, seen, rows, byNode, seedScores, scanned);
      hits, visited, cut, scanned, polls := Gather(q, via, frontier, step, visited, scanned, done, polls);
      ScannedNoRepeats(q, step, frontier, seen, rows, byNode, seedScores, scanned0, scanned);
      if truncated || cut {
        HistoryAccounts(q, trace, left, seen, rows, byNode, seedScores, scanned0, truncated, scanned);
        truncated := true;
        break;
      }
      var best := BestForTarget(hits);
      BestTargets(hits, best);
      ghost var scores0, seen0, rows0, byNode0 := seedScores, seen, rows, byNode;
      seedScores := CreditSeeds(seedScores, hits);
      var next;
      next, seen, rows, byNode, truncated := Emit(q, via, best, seen, rows, byNode);
      StepKeepsInvariant(q, step, frontier, hits, best, scores0, seedScores, scanned0, scanned, seen0, seen, next,
        rows0, byNode0, rows, byNode, truncated);
      StepKeepsHistory(q, trace, frontier, hits, best, scores0, seedScores, scanned0, scanned, seen0, seen, next,
        rows0, byNode0, rows, byNode, truncated);
      trace := trace + [frontier];
      InvariantUses(q, step + 1, next, seen, rows, byNode, seedScores, scanned);
      left := next;
      HistoryAccounts(q, trace, left, seen, rows, byNode, seedScores, scanned, truncated, scanned);
      if |next| == 0 {
        break;
      }
      frontier := next;
      step := step + 1;
    }
    polls := polls + 1;
    PollOnce(done, polls);
    LooksBefore(done, polls - 1);
    if done(polls - 1) {
      truncated := true;
    }
    if Unfiltered(q) { AccountedRows(q, trace, left, rows, seedScores, scanned, truncated); }
  }

  lemma FirstFrontier(q: Query)
    requires q.follow != []
    ensures Continues(q, [], SeedNodes(q.seeds))
  {
  }

  lemma NoPolls(done: nat -> bool)
    ensures !Expired(done, 0)
  {
  }

  lemma PollOnce(done: nat -> bool, polls: nat)
    requires polls > 0
    ensures Expired(done, polls) <==> Expired(done, polls - 1) || done(polls - 1)
  {
  }

  /** All looks but the last of `polls` found the context not done. */
  lemma LooksBefore(done: nat -> bool, polls: nat)
    requires !Expired(done, polls) || (polls > 0 && !Expired(done, polls - 1))
    ensures forall i :: 0 <= i < polls - 1 ==> !done(i)
    ensures Expired(done, polls) ==> polls > 0 && done(polls - 1)
  {
  }

  lemma AccountedRows(q: Query, trace: Trace, left: seq<FrontierNode>, rows: seq<Row>, seedScores: map<Id, real>, scanned: seq<Id>, truncated: bool)
    requires q.follow != [] && Unfiltered(q) && Accounted(q, trace, left, rows, seedScores, scanned)
    requires !truncated ==> Answer(q, trace, rows)
    ensures forall i :: 0 <= i < |rows| ==> BestRow(Contributed(q, trace), rows[i])
    ensures !truncated ==> forall t :: HasRow(rows, t) <==> t !in SeedIds(q.seeds) && HitOn(Contributed(q, trace), t)
  {
    hide BestRow, HitOn, HasRow, TraceOk, Follows, TraceIds, Credited, RowsFollow, RowsComplete, Continues;
    UnfilteredRows(q, trace, rows);
  }
}
