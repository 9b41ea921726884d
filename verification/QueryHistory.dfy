/**
 The run behind an answer: the frontier of every step taken. From it follow the frontier
 of the next step, what each seed is credited with, and the row of every target.
 */
module QueryHistory {
  import opened Wrappers
  import opened GraphWalks
  import opened QueryGraph

  type Trace = seq<seq<FrontierNode>>

  /** The hits of step `n`. */
  function StepHits(q: Query, n: nat, frontier: seq<FrontierNode>): seq<Hit>
    requires q.follow != []
  {
    AllHits(q, KindAt(q.follow, n), frontier, n + 1)
  }

  /** The hits of every step taken. */
  ghost function Contributed(q: Query, trace: Trace): seq<Hit>
    requires q.follow != []
  {
    if trace == [] then []
    else
      var n := |trace| - 1;
      Contributed(q, trace[..n]) + StepHits(q, n, trace[n])
  }

  /** The nodes of those frontiers, in the order they were scanned. */
  ghost function TraceIds(trace: Trace): seq<Id> {
    if trace == [] then [] else TraceIds(trace[..|trace| - 1]) + Ids(trace[|trace| - 1])
  }

  ghost predicate HitOn(hits: seq<Hit>, t: Id) {
    exists h :: h in hits && h.edge.target == t
  }

  // ----- the hit a step keeps for a target

  /** Of the hits on its target, the first that no other one beats. */
  ghost predicate Wins(hits: seq<Hit>, h: Hit) {
    && (exists i :: FirstAt(hits, h, i))
    && (forall g :: g in hits && g.edge.target == h.edge.target ==> !Better(g.score, g.depth, h.score, h.depth))
  }

  ghost predicate WinsFor(hits: seq<Hit>, h: Hit, t: Id) {
    h.edge.target == t && Wins(hits, h)
  }

  lemma WinnerIsUnique(hits: seq<Hit>, g: Hit, h: Hit)
    requires Wins(hits, g) && Wins(hits, h) && g.edge.target == h.edge.target
    ensures g == h
  {
    var i: nat :| FirstAt(hits, g, i);
    var j: nat :| FirstAt(hits, h, j);
    assert hits[i] in hits && hits[j] in hits;
  }

  lemma {:induction false} WinnerExists(hits: seq<Hit>, t: Id)
    requires HitOn(hits, t)
    ensures exists h :: WinsFor(hits, h, t)
  {
    var n := |hits| - 1;
    var init, last := hits[..n], hits[n];
    assert hits == init + [last];
    if HitOn(init, t) {
      WinnerExists(init, t);
      var h :| WinsFor(init, h, t);
      LastHit(init, h, last);
      assert WinsFor(hits, h, t) || WinsFor(hits, last, t);
    } else {
      assert forall i :: 0 <= i < n ==> init[i] in init && init[i] == hits[i];
      assert FirstAt(hits, last, n);
      assert WinsFor(hits, last, t);
    }
  }

  /** One more hit: it wins where it is strictly better than the winner, and changes nothing else. */
  lemma LastHit(init: seq<Hit>, h: Hit, last: Hit)
    requires Wins(init, h)
    ensures if last.edge.target == h.edge.target && Better(last.score, last.depth, h.score, h.depth)
            then Wins(init + [last], last) else Wins(init + [last], h)
  {
    var hits := init + [last];
    var i :| FirstAt(init, h, i);
    assert FirstAt(hits, h, i);
    if last.edge.target == h.edge.target && Better(last.score, last.depth, h.score, h.depth) {
      assert forall j :: 0 <= j < |init| ==> init[j] in init && hits[j] == init[j];
      assert FirstAt(hits, last, |init|);
    }
  }

  ghost function Winner(hits: seq<Hit>, t: Id): (h: Hit)
    requires HitOn(hits, t)
    ensures h.edge.target == t && Wins(hits, h)
  {
    WinnerExists(hits, t);
    var h :| WinsFor(hits, h, t);
    h
  }

  lemma BestIsWinner(hits: seq<Hit>, best: map<Id, Hit>, t: Id)
    requires BestPerTarget(hits, best) && FirstBest(hits, best)
    ensures t in best <==> HitOn(hits, t)
    ensures t in best ==> best[t] == Winner(hits, t)
  {
    if t in best {
      assert Wins(hits, best[t]);
      assert best[t] in hits;
      WinnerIsUnique(hits, best[t], Winner(hits, t));
    }
  }

  // ----- from one step to the next

  function SeedNodes(seeds: seq<Seed>): seq<FrontierNode> {
    seq(|seeds|, i requires 0 <= i < |seeds| => FrontierNode(seeds[i].id, seeds[i].id))
  }

  /**
   The frontier after a step with these hits: once each, the located targets that are no
   seeds and were not hit before, under the seed of the hit that won them.
   */
  ghost predicate Successor(q: Query, past: seq<Hit>, hits: seq<Hit>, next: seq<FrontierNode>) {
    && DistinctIds(next)
    && (forall i :: 0 <= i < |next| ==>
          && IsNew(q, past, next[i].id) && q.repo.locate(next[i].id)
          && HitOn(hits, next[i].id) && next[i].seed == Winner(hits, next[i].id).seed)
    && (forall t :: HitOn(hits, t) && IsNew(q, past, t) && q.repo.locate(t) ==> InFrontier(next, t))
  }

  ghost predicate IsNew(q: Query, past: seq<Hit>, t: Id) {
    t !in SeedIds(q.seeds) && !HitOn(past, t)
  }

  /** `frontier` is what the code scans after the steps of `trace`. */
  ghost predicate Continues(q: Query, trace: Trace, frontier: seq<FrontierNode>)
    requires q.follow != []
  {
    if trace == [] then frontier == SeedNodes(q.seeds)
    else
      var n := |trace| - 1;
      Successor(q, Contributed(q, trace[..n]), StepHits(q, n, trace[n]), frontier)
  }

  ghost predicate Follows(q: Query, trace: Trace)
    requires q.follow != []
  {
    forall n :: 0 <= n < |trace| ==> Continues(q, trace[..n], trace[n])
  }

  // ----- the row of a target

  ghost function RowStep(q: Query, n: nat, past: seq<Hit>, hits: seq<Hit>, before: Option<Row>, t: Id): Option<Row>
    requires q.follow != []
  {
    if !HitOn(hits, t) then before
    else RowAfter(q, KindAt(q.follow, n), before, Winner(hits, t), IsNew(q, past, t), false)
  }

  /** The row the steps of `trace` give to a target, if the limit does not drop it. */
  ghost function RowOf(q: Query, trace: Trace, t: Id): Option<Row>
    requires q.follow != []
  {
    if trace == [] then None
    else
      var n := |trace| - 1;
      RowStep(q, n, Contributed(q, trace[..n]), StepHits(q, n, trace[n]), RowOf(q, trace[..n], t), t)
  }

  ghost predicate HasRow(rows: seq<Row>, v: Id) {
    exists i :: 0 <= i < |rows| && rows[i].edge.target == v
  }

  /** Every row is the one the run gives its target. */
  ghost predicate RowsFollow(q: Query, trace: Trace, rows: seq<Row>)
    requires q.follow != []
  {
    forall i :: 0 <= i < |rows| ==> RowOf(q, trace, rows[i].edge.target) == Some(rows[i])
  }

  /** Every target the run gives a row has it. */
  ghost predicate RowsComplete(q: Query, trace: Trace, rows: seq<Row>)
    requires q.follow != []
  {
    forall t :: RowOf(q, trace, t).Some? ==> HasRow(rows, t)
  }

  // ----- what the traversal keeps and promises

  ghost predicate FrontierNodesOk(q: Query, frontier: seq<FrontierNode>, step: nat)
    requires q.follow != []
  {
    forall i :: 0 <= i < |frontier| ==> FrontierNodeOk(q, frontier[i], step)
  }

  /** Each frontier node has a walk from its seed, as long as its step. */
  ghost predicate TraceOk(q: Query, trace: Trace)
    requires q.follow != []
  {
    forall s, i :: 0 <= s < |trace| && 0 <= i < |trace[s]| ==> FrontierNodeOk(q, trace[s][i], s)
  }

  ghost predicate SeenExactly(q: Query, past: seq<Hit>, seen: set<Id>) {
    forall v :: v in seen <==> v in SeedIds(q.seeds) || HitOn(past, v)
  }

  ghost predicate RowsMatch(q: Query, trace: Trace, rows: seq<Row>, byNode: map<Id, RowBest>, full: bool)
    requires q.follow != []
  {
    forall t :: RowAt(rows, byNode, t) == RowOf(q, trace, t) || (full && RowAt(rows, byNode, t) == None)
  }

  ghost predicate DistinctTargets(rows: seq<Row>) {
    forall i, j :: 0 <= i < j < |rows| ==> rows[i].edge.target != rows[j].edge.target
  }

  /** The run gives some target a row that the limit kept out. */
  ghost predicate RowMissing(q: Query, trace: Trace, rows: seq<Row>, byNode: map<Id, RowBest>)
    requires q.follow != []
  {
    exists t :: RowOf(q, trace, t).Some? && RowAt(rows, byNode, t) == None
  }

  ghost predicate History(q: Query, trace: Trace, seen: set<Id>, rows: seq<Row>, byNode: map<Id, RowBest>,
      seedScores: map<Id, real>, scanned: seq<Id>, full: bool)
    requires q.follow != []
  {
    && TraceOk(q, trace)
    && Follows(q, trace)
    && TraceIds(trace) == scanned
    && Credited(map[], Contributed(q, trace), seedScores)
    && SeenExactly(q, Contributed(q, trace), seen)
    && RowsMatch(q, trace, rows, byNode, full)
    && (full ==> RowMissing(q, trace, rows, byNode))
  }

  /**
   What the caller is promised of the run behind any answer: the steps of `trace` were taken,
   and of the frontier `left` that follows them some first nodes may have been scanned as well.
   */
  ghost predicate Accounted(q: Query, trace: Trace, left: seq<FrontierNode>, rows: seq<Row>, seedScores: map<Id, real>, scanned: seq<Id>)
    requires q.follow != []
  {
    && TraceOk(q, trace)
    && Follows(q, trace)
    && Continues(q, trace, left)
    && |trace| <= q.depth
    && TraceIds(trace) <= scanned <= TraceIds(trace) + Ids(left)
    && Credited(map[], Contributed(q, trace), seedScores)
    && RowsFollow(q, trace, rows)
    && (RowsComplete(q, trace, rows) || |rows| == q.limit)
  }

  /** What it is promised of an answer that is not truncated: the run went on to its end within the caps, and no row is missing. */
  ghost predicate Answer(q: Query, trace: Trace, rows: seq<Row>)
    requires q.follow != []
  {
    && TraceOk(q, trace)
    && Follows(q, trace)
    && |trace| <= q.depth
    && (|trace| == q.depth || Continues(q, trace, []))
    && |TraceIds(trace)| <= MAX_VISITED
    && DistinctTargets(rows) && |rows| <= q.limit
    && RowsFollow(q, trace, rows)
    && RowsComplete(q, trace, rows)
  }

  lemma NoHistory(q: Query, seen: set<Id>)
    requires q.follow != [] && seen == SeedIds(q.seeds)
    ensures History(q, [], seen, [], map[], map[], [], false)
  {
  }

  lemma MatchedRows(q: Query, trace: Trace, rows: seq<Row>, byNode: map<Id, RowBest>, full: bool)
    requires q.follow != [] && Consistent(rows, byNode) && RowsMatch(q, trace, rows, byNode, full)
    requires full ==> RowMissing(q, trace, rows, byNode)
    ensures RowsFollow(q, trace, rows) && DistinctTargets(rows)
    ensures full <==> !RowsComplete(q, trace, rows)
  {
    hide RowOf;
    forall i | 0 <= i < |rows| ensures RowOf(q, trace, rows[i].edge.target) == Some(rows[i]) {
      assert RowAt(rows, byNode, rows[i].edge.target) == Some(rows[i]);
    }
    if !full {
      forall t | RowOf(q, trace, t).Some? ensures HasRow(rows, t) {
        assert RowAt(rows, byNode, t) == RowOf(q, trace, t);
        assert rows[byNode[t].rowIdx].edge.target == t;
      }
    } else {
      var t :| RowOf(q, trace, t).Some? && RowAt(rows, byNode, t) == None;
      assert !HasRow(rows, t);
    }
  }

  lemma HistoryAccounts(q: Query, trace: Trace, left: seq<FrontierNode>, seen: set<Id>, rows: seq<Row>, byNode: map<Id, RowBest>,
      seedScores: map<Id, real>, scanned: seq<Id>, full: bool, scannedAtEnd: seq<Id>)
    requires q.follow != [] && History(q, trace, seen, rows, byNode, seedScores, scanned, full) && Continues(q, trace, left)
    requires scanned <= scannedAtEnd <= scanned + Ids(left) && |trace| <= q.depth
    requires Consistent(rows, byNode) && |rows| <= q.limit && (full ==> |rows| == q.limit)
    ensures Accounted(q, trace, left, rows, seedScores, scannedAtEnd)
    ensures TraceIds(trace) == scanned
    ensures full <==> !RowsComplete(q, trace, rows)
    ensures !full && (|trace| == q.depth || left == []) && |scanned| <= MAX_VISITED ==> Answer(q, trace, rows)
  {
    hide TraceOk, Follows, TraceIds, Credited, Contributed, RowsFollow, RowsComplete, RowsMatch, SeenExactly, Continues, Consistent,
      RowMissing, DistinctTargets;
    MatchedRows(q, trace, rows, byNode, full);
  }

  /** Crediting in two rounds is crediting once. */
  lemma CreditedJoin(a: map<Id, real>, x: seq<Hit>, b: map<Id, real>, y: seq<Hit>, c: map<Id, real>)
    requires Credited(a, x, b) && Credited(b, y, c)
    ensures Credited(a, x + y, c)
  {
    forall s | s in c ensures (s in a && c[s] == a[s]) || exists h :: h in x + y && h.seed == s && h.score == c[s] {
      if s in b && c[s] == b[s] {
        if !(s in a && b[s] == a[s]) {
          var h :| h in x && h.seed == s && h.score == b[s];
          assert h in x + y;
        }
      } else {
        var h :| h in y && h.seed == s && h.score == c[s];
        assert h in x + y;
      }
    }
  }

  lemma TraceSnoc(q: Query, trace: Trace, frontier: seq<FrontierNode>)
    requires q.follow != []
    ensures Contributed(q, trace + [frontier]) == Contributed(q, trace) + StepHits(q, |trace|, frontier)
    ensures TraceIds(trace + [frontier]) == TraceIds(trace) + Ids(frontier)
    ensures forall t ::
      RowOf(q, trace + [frontier], t) ==
        RowStep(q, |trace|, Contributed(q, trace), StepHits(q, |trace|, frontier), RowOf(q, trace, t), t)
    ensures forall next ::
      Continues(q, trace + [frontier], next) <==> Successor(q, Contributed(q, trace), StepHits(q, |trace|, frontier), next)
  {
    hide RowStep, Successor;
    assert (trace + [frontier])[..|trace|] == trace;
  }

  lemma TraceOkSnoc(q: Query, trace: Trace, frontier: seq<FrontierNode>)
    requires q.follow != [] && TraceOk(q, trace)
    requires FrontierNodesOk(q, frontier, |trace|)
    ensures TraceOk(q, trace + [frontier])
  {
    hide FrontierNodeOk;
  }

  lemma FollowsSnoc(q: Query, trace: Trace, frontier: seq<FrontierNode>)
    requires q.follow != [] && Follows(q, trace) && Continues(q, trace, frontier)
    ensures Follows(q, trace + [frontier])
  {
    hide Continues;
    var all := trace + [frontier];
    forall n | 0 <= n < |all| ensures Continues(q, all[..n], all[n]) {
      assert all[..n] == trace[..n];
      assert n == |trace| ==> trace[..n] == trace;
    }
  }

  lemma HitOnJoin(x: seq<Hit>, y: seq<Hit>, t: Id)
    ensures HitOn(x + y, t) <==> HitOn(x, t) || HitOn(y, t)
  {
    assert forall h :: h in x + y <==> h in x || h in y;
  }

  /** What one step sees, keeps and queues, in terms of its hits. */
  lemma StepSees(q: Query, past: seq<Hit>, hits: seq<Hit>, best: map<Id, Hit>, seen0: set<Id>, seen: set<Id>, next: seq<FrontierNode>)
    requires SeenExactly(q, past, seen0)
    requires BestPerTarget(hits, best) && FirstBest(hits, best)
    requires Expanded(q.repo, best, best.Keys, seen0, seen, next)
    ensures SeenExactly(q, past + hits, seen)
    ensures Successor(q, past, hits, next)
  {
    hide BestPerTarget, FirstBest, HitOn, InFrontier;
    forall t ensures t in best <==> HitOn(hits, t) ensures t in best ==> best[t] == Winner(hits, t) {
      BestIsWinner(hits, best, t);
    }
    forall v ensures v in seen <==> v in SeedIds(q.seeds) || HitOn(past + hits, v) { HitOnJoin(past, hits, v); }
  }

  lemma StepRow(q: Query, trace: Trace, past: seq<Hit>, hits: seq<Hit>, best: map<Id, Hit>, seen0: set<Id>,
      rows0: seq<Row>, byNode0: map<Id, RowBest>, rows: seq<Row>, byNode: map<Id, RowBest>, full: bool, t: Id)
    requires q.follow != [] && SeenExactly(q, past, seen0)
    requires BestPerTarget(hits, best) && FirstBest(hits, best)
    requires RowsUpdated(q, KindAt(q.follow, |trace|), best, best.Keys, seen0, rows0, byNode0, rows, byNode, full)
    ensures RowAt(rows, byNode, t) == RowStep(q, |trace|, past, hits, RowAt(rows0, byNode0, t), t) ||
      (full && RowAt(rows, byNode, t) == None)
  {
    hide BestPerTarget, FirstBest, HitOn, RowAfter, RowAt;
    BestIsWinner(hits, best, t);
  }

  lemma StepKeepsHistory(q: Query, trace: Trace, frontier: seq<FrontierNode>, hits: seq<Hit>, best: map<Id, Hit>,
      scores0: map<Id, real>, scores: map<Id, real>, scanned0: seq<Id>, scanned: seq<Id>, seen0: set<Id>, seen: set<Id>,
      next: seq<FrontierNode>, rows0: seq<Row>, byNode0: map<Id, RowBest>, rows: seq<Row>, byNode: map<Id, RowBest>, full: bool)
    requires q.follow != [] && History(q, trace, seen0, rows0, byNode0, scores0, scanned0, false)
    requires Continues(q, trace, frontier)
    requires FrontierNodesOk(q, frontier, |trace|)
    requires hits == StepHits(q, |trace|, frontier)
    requires BestPerTarget(hits, best) && FirstBest(hits, best) && Credited(scores0, hits, scores)
    requires scanned == scanned0 + Ids(frontier)
    requires Expanded(q.repo, best, best.Keys, seen0, seen, next)
    requires RowsUpdated(q, KindAt(q.follow, |trace|), best, best.Keys, seen0, rows0, byNode0, rows, byNode, full)
    requires full ==> SomeRowDropped(q, KindAt(q.follow, |trace|), best, best.Keys, seen0, rows0, byNode0, rows, byNode)
    ensures History(q, trace + [frontier], seen, rows, byNode, scores, scanned, full)
    ensures Continues(q, trace + [frontier], next)
  {
    hide FrontierNodesOk, StepHits, Credited, RowsUpdated, Contributed, TraceIds, TraceOk, Follows, SeenExactly, Continues, Successor,
      RowStep, RowOf, BestPerTarget, FirstBest, Expanded, SomeRowDropped, RowAt;
    TraceSnoc(q, trace, frontier);
    TraceOkSnoc(q, trace, frontier);
    FollowsSnoc(q, trace, frontier);
    CreditedJoin(map[], Contributed(q, trace), scores0, hits, scores);
    StepSees(q, Contributed(q, trace), hits, best, seen0, seen, next);
    forall t ensures RowAt(rows, byNode, t) == RowOf(q, trace + [frontier], t) || (full && RowAt(rows, byNode, t) == None) {
      StepRow(q, trace, Contributed(q, trace), hits, best, seen0, rows0, byNode0, rows, byNode, full, t);
    }
    if full {
      var t := DroppedIsMissing(q, trace, Contributed(q, trace), hits, best, seen0, rows0, byNode0, rows, byNode);
      assert RowOf(q, trace + [frontier], t).Some?;
    }
  }

  /** A target whose row was dropped is one the run gives a row. */
  lemma DroppedIsMissing(q: Query, trace: Trace, past: seq<Hit>, hits: seq<Hit>, best: map<Id, Hit>, seen0: set<Id>,
      rows0: seq<Row>, byNode0: map<Id, RowBest>, rows: seq<Row>, byNode: map<Id, RowBest>) returns (t: Id)
    requires q.follow != [] && SeenExactly(q, past, seen0)
    requires BestPerTarget(hits, best) && FirstBest(hits, best)
    requires SomeRowDropped(q, KindAt(q.follow, |trace|), best, best.Keys, seen0, rows0, byNode0, rows, byNode)
    ensures RowAt(rows, byNode, t) == None
    ensures RowStep(q, |trace|, past, hits, RowAt(rows0, byNode0, t), t).Some?
  {
    hide BestPerTarget, FirstBest, HitOn, RowAfter, RowAt;
    t :| t in best.Keys && RowDropped(q, KindAt(q.follow, |trace|), best, seen0, rows0, byNode0, rows, byNode, t);
    BestIsWinner(hits, best, t);
  }

  // ----- what the rows of a run are

  predicate Unfiltered(q: Query) {
    q.kindFilter == "" && !q.excludeTests
  }

  /** A row's depth and score are those of a hit on its target that no other hit on it beats. */
  ghost predicate BestRow(hits: seq<Hit>, row: Row) {
    && (exists h :: h in hits && h.edge.target == row.edge.target && h.depth == row.depth && h.score == row.score)
    && (forall h :: h in hits && h.edge.target == row.edge.target ==> !Better(h.score, h.depth, row.score, row.depth))
  }

  lemma NotBetterTransitive(s1: real, d1: nat, s2: real, d2: nat, s3: real, d3: nat)
    requires !Better(s1, d1, s2, d2) && !Better(s2, d2, s3, d3)
    ensures !Better(s1, d1, s3, d3)
  {
  }

  lemma RowStaysBest(q: Query, via: string, before: Option<Row>, past: seq<Hit>, hits: seq<Hit>, b: Hit, isNew: bool, row: Row)
    requires Passes(q, b.edge) && RowAfter(q, via, before, b, isNew, false) == Some(row)
    requires Wins(hits, b)
    requires before.Some? ==> before.value.edge.target == b.edge.target && BestRow(past, before.value)
    requires isNew ==> !HitOn(past, b.edge.target)
    ensures BestRow(past + hits, row) && row.edge.target == b.edge.target
  {
    assert b in hits by { var i :| FirstAt(hits, b, i); }
    assert b in past + hits;
    if before.Some? {
      var old' := before.value;
      forall h | h in past + hits && h.edge.target == row.edge.target ensures !Better(h.score, h.depth, row.score, row.depth) {
        if h in past { NotBetterTransitive(h.score, h.depth, old'.score, old'.depth, row.score, row.depth); }
        else { NotBetterTransitive(h.score, h.depth, b.score, b.depth, row.score, row.depth); }
      }
      var w :| w in past && w.edge.target == old'.edge.target && w.depth == old'.depth && w.score == old'.score;
      assert w in past + hits;
    }
  }

  lemma RowUntouched(past: seq<Hit>, hits: seq<Hit>, row: Row)
    requires BestRow(past, row) && !HitOn(hits, row.edge.target)
    ensures BestRow(past + hits, row)
  {
    var w :| w in past && w.edge.target == row.edge.target && w.depth == row.depth && w.score == row.score;
    assert w in past + hits;
  }

  /** Every hit on the target is one the filters let through. */
  ghost predicate AllPass(q: Query, hits: seq<Hit>, t: Id) {
    forall h :: h in hits && h.edge.target == t ==> Passes(q, h.edge)
  }

  /** A target whose hits all pass the filters has a row exactly if it is hit and no seed, and the row carries the best hit on it. */
  lemma {:induction false} RowOfPassing(q: Query, trace: Trace, t: Id)
    requires q.follow != [] && AllPass(q, Contributed(q, trace), t)
    ensures RowOf(q, trace, t).Some? <==> t !in SeedIds(q.seeds) && HitOn(Contributed(q, trace), t)
    ensures RowOf(q, trace, t).Some? ==>
      RowOf(q, trace, t).value.edge.target == t && BestRow(Contributed(q, trace), RowOf(q, trace, t).value)
  {
    hide BestRow, HitOn, Passes;
    if trace == [] {
      assert !HitOn(Contributed(q, trace), t) by { NoHits(t); }
    } else {
      var n := |trace| - 1;
      var past, hits := Contributed(q, trace[..n]), StepHits(q, n, trace[n]);
      hide StepHits;
      assert AllPass(q, past, t) && AllPass(q, hits, t) by { assert Contributed(q, trace) == past + hits; }
      RowOfPassing(q, trace[..n], t);
      HitOnJoin(past, hits, t);
      var before := RowOf(q, trace[..n], t);
      if HitOn(hits, t) {
        WinnerIn(hits, Winner(hits, t));
        if t !in SeedIds(q.seeds) {
          RowStaysBest(q, KindAt(q.follow, n), before, past, hits, Winner(hits, t), IsNew(q, past, t), RowOf(q, trace, t).value);
        }
      } else if before.Some? {
        RowUntouched(past, hits, before.value);
      }
    }
  }

  lemma WinnerIn(hits: seq<Hit>, h: Hit)
    requires Wins(hits, h)
    ensures h in hits
  {
    var i: nat :| FirstAt(hits, h, i);
  }

  /** When nothing is filtered, the targets hit, seeds apart, have rows, and each row carries the best hit on its target. */
  lemma RowOfIsBest(q: Query, trace: Trace, t: Id)
    requires q.follow != [] && Unfiltered(q)
    ensures RowOf(q, trace, t).Some? <==> t !in SeedIds(q.seeds) && HitOn(Contributed(q, trace), t)
    ensures RowOf(q, trace, t).Some? ==>
      RowOf(q, trace, t).value.edge.target == t && BestRow(Contributed(q, trace), RowOf(q, trace, t).value)
  {
    RowOfPassing(q, trace, t);
  }

  lemma NoHits(t: Id)
    ensures !HitOn([], t)
  {
  }

  /** The rows of an unfiltered run: best hits, and, if none is missing, for exactly the targets hit. */
  lemma UnfilteredRows(q: Query, trace: Trace, rows: seq<Row>)
    requires q.follow != [] && Unfiltered(q) && RowsFollow(q, trace, rows)
    ensures forall i :: 0 <= i < |rows| ==> BestRow(Contributed(q, trace), rows[i])
    ensures RowsComplete(q, trace, rows) ==>
      forall t :: HasRow(rows, t) <==> t !in SeedIds(q.seeds) && HitOn(Contributed(q, trace), t)
  {
    hide BestRow, RowOf, HitOn;
    forall i | 0 <= i < |rows| ensures BestRow(Contributed(q, trace), rows[i]) {
      RowOfIsBest(q, trace, rows[i].edge.target);
    }
    if RowsComplete(q, trace, rows) {
      forall t ensures HasRow(rows, t) <==> t !in SeedIds(q.seeds) && HitOn(Contributed(q, trace), t) {
        RowOfIsBest(q, trace, t);
      }
    }
  }
}
