/**
 The multi-seed traversal of `internal/tool/querygraph.go`, as the code runs it: one step
 gathers the hits of the frontier, keeps the best per target, credits the seeds, and
 emits or improves rows while it builds the next frontier. Map iteration order and
 the graph are arbitrary, and so is what each look at the context finds; scores are reals.
 */
module QueryGraph {
  import opened Wrappers
  import opened GraphWalks

  const MAX_VISITED: nat := 5000

  datatype Seed = Seed(id: Id, weight: real)

  datatype FrontierNode = FrontierNode(id: Id, seed: Id)

  datatype Hit = Hit(seed: Id, score: real, depth: nat, edge: Edge)

  datatype Row = Row(edge: Edge, via: string, depth: nat, score: real)

  datatype RowBest = RowBest(rowIdx: nat, depth: nat, score: real, seed: Id)

  /** The query's fixed parameters; an empty `kindFilter` filters nothing. */
  datatype Query = Query(repo: Repo, seeds: seq<Seed>, follow: seq<string>, depth: nat, limit: nat,
                         kindFilter: string, excludeTests: bool)

  predicate IsTestFile(file: string) {
    var suffix := "_test.go";
    |file| >= |suffix| && file[|file| - |suffix|..] == suffix
  }

  predicate Passes(q: Query, e: Edge) {
    && !(q.excludeTests && IsTestFile(e.file))
    && !(q.kindFilter != "" && e.targetKind != q.kindFilter)
  }

  function SeedIds(seeds: seq<Seed>): set<Id> {
    set i | 0 <= i < |seeds| :: seeds[i].id
  }

  /** The weight of the first seed with this id. */
  function WeightOf(seeds: seq<Seed>, id: Id): real {
    if seeds == [] then 1.0 else if seeds[0].id == id then seeds[0].weight else WeightOf(seeds[1..], id)
  }

  function ScoreAt(weight: real, depth: nat): real {
    weight / (1 + depth) as real
  }

  /** The rule by which one contribution replaces another. */
  predicate Better(score: real, depth: nat, oldScore: real, oldDepth: nat) {
    score > oldScore || (score == oldScore && depth < oldDepth)
  }

  // ----- gathering

  /** What scanning frontier node `fn` at depth `d` contributes: one hit per edge. */
  function HitsOf(q: Query, via: string, fn: FrontierNode, d: nat): seq<Hit> {
    var edges := q.repo.scan(via, fn.id);
    seq(|edges|, i requires 0 <= i < |edges| => Hit(fn.seed, ScoreAt(WeightOf(q.seeds, fn.seed), d), d, edges[i]))
  }

  function AllHits(q: Query, via: string, frontier: seq<FrontierNode>, d: nat): seq<Hit> {
    if frontier == [] then []
    else AllHits(q, via, frontier[..|frontier| - 1], d) + HitsOf(q, via, frontier[|frontier| - 1], d)
  }

  lemma {:induction false} AllHitsIff(q: Query, via: string, frontier: seq<FrontierNode>, d: nat, h: Hit)
    ensures h in AllHits(q, via, frontier, d) <==> exists i :: 0 <= i < |frontier| && h in HitsOf(q, via, frontier[i], d)
  {
    if frontier != [] {
      var n := |frontier| - 1;
      AllHitsIff(q, via, frontier[..n], d, h);
      if i :| 0 <= i < |frontier| && h in HitsOf(q, via, frontier[i], d) {
        if i < n { assert frontier[..n][i] == frontier[i]; }
      }
      if i :| 0 <= i < n && h in HitsOf(q, via, frontier[..n][i], d) {
        assert frontier[..n][i] == frontier[i];
      }
    }
  }

  function Ids(frontier: seq<FrontierNode>): (r: seq<Id>)
    ensures |r| == |frontier| && forall i :: 0 <= i < |r| ==> r[i] == frontier[i].id
  {
    seq(|frontier|, i requires 0 <= i < |frontier| => frontier[i].id)
  }

  /** One of the first `polls` looks at the context found it done. */
  ghost predicate Expired(done: nat -> bool, polls: nat) {
    exists i: nat :: i < polls && done(i)
  }

  /** Scans the frontier in order until it is through, the visit cap is reached, or the context is done. */
  method Gather(q: Query, via: string, frontier: seq<FrontierNode>, step: nat, visited0: nat, ghost scanned0: seq<Id>,
      done: nat -> bool, polls0: nat)
    returns (hits: seq<Hit>, visited: nat, truncated: bool, ghost scanned: seq<Id>, polls: nat)
    requires visited0 <= MAX_VISITED && |scanned0| == visited0
    ensures visited <= MAX_VISITED && |scanned| == visited
    ensures visited0 <= visited <= visited0 + |frontier|
    ensures scanned == scanned0 + Ids(frontier)[..visited - visited0]
    ensures !truncated ==> hits == AllHits(q, via, frontier, step + 1) && visited == visited0 + |frontier|
    ensures polls0 + (visited - visited0) <= polls <= polls0 + (visited - visited0) + if truncated then 1 else 0
    ensures truncated ==>
      (visited == MAX_VISITED && visited < visited0 + |frontier|) || (polls > polls0 && done(polls - 1))
    ensures !Expired(done, polls0) ==> !Expired(done, polls) || (polls > 0 && !Expired(done, polls - 1))
    ensures !truncated ==> (Expired(done, polls) <==> Expired(done, polls0))
  {
    hits, visited, truncated, scanned, polls := [], visited0, false, scanned0, polls0;
    for i := 0 to |frontier|
      invariant !truncated && visited == visited0 + i <= MAX_VISITED && |scanned| == visited
      invariant scanned == scanned0 + Ids(frontier)[..i]
      invariant hits == AllHits(q, via, frontier[..i], step + 1)
      invariant polls == polls0 + i && (Expired(done, polls) <==> Expired(done, polls0))
    {
      assert frontier[..i + 1][..i] == frontier[..i];
      if visited >= MAX_VISITED {
        truncated := true;
        break;
      }
      polls := polls + 1;
      if done(polls - 1) {
        truncated := true;
        break;
      }
      visited := visited + 1;
      scanned := scanned + [frontier[i].id];
      hits := hits + HitsOf(q, via, frontier[i], step + 1);
    }
    if !truncated { assert frontier[..|frontier|] == frontier; }
  }

  // ----- best hit per target, best score per seed

  /** `best` holds, for exactly the targets hit, a hit no other hit on the target beats. */
  ghost predicate BestPerTarget(hits: seq<Hit>, best: map<Id, Hit>) {
    && (forall h :: h in hits ==> h.edge.target in best)
    && (forall t :: t in best ==> best[t] in hits && best[t].edge.target == t)
    && (forall h :: h in hits && h.edge.target in best ==>
          !Better(h.score, h.depth, best[h.edge.target].score, best[h.edge.target].depth))
  }

  /** Among hits that tie, the one gathered first is kept. */
  ghost predicate FirstBest(hits: seq<Hit>, best: map<Id, Hit>) {
    forall t :: t in best ==> exists i :: FirstAt(hits, best[t], i)
  }

  ghost predicate FirstAt(hits: seq<Hit>, h: Hit, i: nat) {
    && i < |hits| && hits[i] == h
    && forall j :: 0 <= j < i && hits[j].edge.target == h.edge.target ==> Better(h.score, h.depth, hits[j].score, hits[j].depth)
  }

  /** One more hit: it is first where it is strictly better than what was kept, or where nothing was. */
  lemma FirstBestExtends(hits: seq<Hit>, best: map<Id, Hit>, h: Hit)
    requires BestPerTarget(hits, best) && FirstBest(hits, best)
    ensures forall t :: t in best ==> exists i :: FirstAt(hits + [h], best[t], i)
    ensures
      (h.edge.target !in best || Better(h.score, h.depth, best[h.edge.target].score, best[h.edge.target].depth)) ==>
        FirstAt(hits + [h], h, |hits|)
  {
    forall t | t in best ensures exists i :: FirstAt(hits + [h], best[t], i) {
      var i :| FirstAt(hits, best[t], i);
      assert FirstAt(hits + [h], best[t], i);
    }
    forall j | 0 <= j < |hits| && hits[j].edge.target == h.edge.target
      ensures hits[j].edge.target in best
      ensures !Better(hits[j].score, hits[j].depth, best[h.edge.target].score, best[h.edge.target].depth)
    {
      assert hits[j] in hits;
    }
  }

  method BestForTarget(hits: seq<Hit>) returns (best: map<Id, Hit>)
    ensures BestPerTarget(hits, best)
    ensures FirstBest(hits, best)
  {
    hide FirstAt;
    best := map[];
    for i := 0 to |hits|
      invariant BestPerTarget(hits[..i], best)
      invariant FirstBest(hits[..i], best)
    {
      assert hits[..i + 1] == hits[..i] + [hits[i]];
      var h := hits[i];
      FirstBestExtends(hits[..i], best, h);
      if h.edge.target in best {
        var existing := best[h.edge.target];
        if Better(h.score, h.depth, existing.score, existing.depth) {
          best := best[h.edge.target := h];
        }
      } else {
        best := best[h.edge.target := h];
      }
    }
    assert hits[..|hits|] == hits;
  }

  /** Each seed's score is the largest of its old one and those of its hits. */
  ghost predicate Credited(before: map<Id, real>, hits: seq<Hit>, after: map<Id, real>) {
    && (forall s :: s in before ==> s in after && after[s] >= before[s])
    && (forall h :: h in hits ==> h.seed in after && after[h.seed] >= h.score)
    && (forall s :: s in after ==> (s in before && after[s] == before[s]) || exists h :: h in hits && h.seed == s && h.score == after[s])
  }

  method CreditSeeds(before: map<Id, real>, hits: seq<Hit>) returns (after: map<Id, real>)
    ensures Credited(before, hits, after)
  {
    after := before;
    for i := 0 to |hits|
      invariant Credited(before, hits[..i], after)
    {
      assert hits[..i + 1] == hits[..i] + [hits[i]];
      var h := hits[i];
      if h.seed !in after || h.score > after[h.seed] {
        after := after[h.seed := h.score];
      }
    }
    assert hits[..|hits|] == hits;
  }

  // ----- expanding the frontier

  ghost predicate DistinctIds(frontier: seq<FrontierNode>) {
    forall i, j :: 0 <= i < j < |frontier| ==> frontier[i].id != frontier[j].id
  }

  ghost predicate InFrontier(frontier: seq<FrontierNode>, t: Id) {
    exists i :: 0 <= i < |frontier| && frontier[i].id == t
  }

  /** After the targets in `done`: all are seen, and the new ones that can be located are queued once. */
  ghost predicate Expanded(repo: Repo, best: map<Id, Hit>, done: set<Id>, seen0: set<Id>, seen: set<Id>, next: seq<FrontierNode>) {
    && done <= best.Keys
    && seen == seen0 + done
    && DistinctIds(next)
    && (forall i :: 0 <= i < |next| ==>
          var t := next[i].id; t in done && t !in seen0 && repo.locate(t) && next[i].seed == best[t].seed)
    && (forall t :: t in done && t !in seen0 && repo.locate(t) ==> InFrontier(next, t))
  }

  method Expand(repo: Repo, best: map<Id, Hit>, t: Id, ghost done: set<Id>, ghost seen0: set<Id>, seen: set<Id>, next: seq<FrontierNode>)
    returns (expand: bool, seen': set<Id>, next': seq<FrontierNode>)
    requires Expanded(repo, best, done, seen0, seen, next) && t in best && t !in done
    ensures Expanded(repo, best, done + {t}, seen0, seen', next')
    ensures expand <==> t !in seen0
  {
    expand, seen', next' := t !in seen, seen, next;
    if expand {
      seen' := seen' + {t};
      if repo.locate(t) {
        next' := next' + [FrontierNode(t, best[t].seed)];
        assert next'[|next|].id == t;
      }
    }
    assert forall x :: InFrontier(next, x) ==> InFrontier(next', x) by {
      forall x | InFrontier(next, x) ensures InFrontier(next', x) {
        var i :| 0 <= i < |next| && next[i].id == x;
        assert next'[i].id == x;
      }
    }
  }

  // ----- emitting and improving rows

  /** The index of rows by target is exact. */
  ghost predicate Consistent(rows: seq<Row>, byNode: map<Id, RowBest>) {
    && (forall t :: t in byNode ==>
          var b := byNode[t];
          b.rowIdx < |rows| && rows[b.rowIdx].edge.target == t && rows[b.rowIdx].depth == b.depth && rows[b.rowIdx].score == b.score)
    && (forall i :: 0 <= i < |rows| ==> rows[i].edge.target in byNode && byNode[rows[i].edge.target].rowIdx == i)
  }

  /** The row of a target that has one. */
  function RowAt(rows: seq<Row>, byNode: map<Id, RowBest>, t: Id): Option<Row> {
    if t in byNode && byNode[t].rowIdx < |rows| then Some(rows[byNode[t].rowIdx]) else None
  }

  /** A row after the best hit on its target has been applied to it. */
  function Improved(row: Row, h: Hit): Row {
    if Better(h.score, h.depth, row.score, row.depth) then row.(depth := h.depth, score := h.score) else row
  }

  function NewRow(via: string, h: Hit): Row {
    Row(h.edge, via, h.depth, h.score)
  }

  /** One target's row before and after its best hit; a full table drops new rows. */
  function RowAfter(q: Query, via: string, before: Option<Row>, h: Hit, expand: bool, full: bool): Option<Row> {
    if !Passes(q, h.edge) then before
    else
      match before
      case Some(row) => Some(Improved(row, h))
      case None => if expand && !full then Some(NewRow(via, h)) else None
  }

  method EmitRow(q: Query, via: string, h: Hit, expand: bool, rows: seq<Row>, byNode: map<Id, RowBest>)
    returns (rows': seq<Row>, byNode': map<Id, RowBest>, full: bool)
    requires Consistent(rows, byNode) && |rows| <= q.limit
    ensures Consistent(rows', byNode') && |rows| <= |rows'| <= q.limit
    ensures full ==> |rows| == q.limit && h.edge.target !in byNode && Passes(q, h.edge) && expand
    ensures RowAt(rows', byNode', h.edge.target) == RowAfter(q, via, RowAt(rows, byNode, h.edge.target), h, expand, full)
    ensures forall t :: t != h.edge.target ==> RowAt(rows', byNode', t) == RowAt(rows, byNode, t)
  {
    rows', byNode', full := rows, byNode, false;
    var t := h.edge.target;
    if q.excludeTests && IsTestFile(h.edge.file) {
      return;
    }
    if q.kindFilter != "" && h.edge.targetKind != q.kindFilter {
      return;
    }
    if t in byNode {
      var existing := byNode[t];
      if Better(h.score, h.depth, existing.score, existing.depth) {
        rows' := rows[existing.rowIdx := rows[existing.rowIdx].(depth := h.depth, score := h.score)];
        byNode' := byNode[t := RowBest(existing.rowIdx, h.depth, h.score, h.seed)];
      }
    } else if expand {
      if |rows| >= q.limit {
        full := true;
        return;
      }
      rows' := rows + [NewRow(via, h)];
      byNode' := byNode[t := RowBest(|rows|, h.depth, h.score, h.seed)];
    }
  }

  /** What a step does to the row of every target; `full` says whether a new row had to be dropped. */
  ghost predicate RowsUpdated(q: Query, via: string, best: map<Id, Hit>, done: set<Id>, seen0: set<Id>,
      rows0: seq<Row>, byNode0: map<Id, RowBest>, rows: seq<Row>, byNode: map<Id, RowBest>, full: bool)
  {
    && done <= best.Keys
    && (forall t :: t !in done ==> RowAt(rows, byNode, t) == RowAt(rows0, byNode0, t))
    && (forall t :: t in done ==>
          || RowAt(rows, byNode, t) == RowAfter(q, via, RowAt(rows0, byNode0, t), best[t], t !in seen0, false)
          || (full && RowAt(rows, byNode, t) == RowAt(rows0, byNode0, t) == None))
  }

  /** A target that should have had a new row, and has none. */
  ghost predicate RowDropped(q: Query, via: string, best: map<Id, Hit>, seen0: set<Id>, rows0: seq<Row>, byNode0: map<Id, RowBest>,
      rows: seq<Row>, byNode: map<Id, RowBest>, t: Id)
  {
    && t in best && RowAt(rows, byNode, t) == None
    && RowAfter(q, via, RowAt(rows0, byNode0, t), best[t], t !in seen0, false).Some?
  }

  ghost predicate SomeRowDropped(q: Query, via: string, best: map<Id, Hit>, done: set<Id>, seen0: set<Id>,
      rows0: seq<Row>, byNode0: map<Id, RowBest>, rows: seq<Row>, byNode: map<Id, RowBest>)
  {
    exists t :: t in done && RowDropped(q, via, best, seen0, rows0, byNode0, rows, byNode, t)
  }

  method Emit(q: Query, via: string, best: map<Id, Hit>, seen0: set<Id>, rows0: seq<Row>, byNode0: map<Id, RowBest>)
    returns (next: seq<FrontierNode>, seen: set<Id>, rows: seq<Row>, byNode: map<Id, RowBest>, full: bool)
    requires Consistent(rows0, byNode0) && |rows0| <= q.limit
    requires forall t :: t in best ==> best[t].edge.target == t
    ensures Expanded(q.repo, best, best.Keys, seen0, seen, next)
    ensures Consistent(rows, byNode) && |rows| <= q.limit && (full ==> |rows| == q.limit)
    ensures RowsUpdated(q, via, best, best.Keys, seen0, rows0, byNode0, rows, byNode, full)
    ensures full ==> SomeRowDropped(q, via, best, best.Keys, seen0, rows0, byNode0, rows, byNode)
  {
    hide Consistent, Expanded, RowAfter, RowAt;
    next, seen, rows, byNode, full := [], seen0, rows0, byNode0, false;
    var todo := best.Keys;
    assert best.Keys - todo == {};
    assert Expanded(q.repo, best, {}, seen0, seen, next) by { NothingExpanded(q.repo, best, seen0); }
    while todo != {}
      invariant todo <= best.Keys
      invariant Expanded(q.repo, best, best.Keys - todo, seen0, seen, next)
      invariant Consistent(rows, byNode) && |rows| <= q.limit && (full ==> |rows| == q.limit)
      invariant RowsUpdated(q, via, best, best.Keys - todo, seen0, rows0, byNode0, rows, byNode, full)
      invariant full ==> SomeRowDropped(q, via, best, best.Keys - todo, seen0, rows0, byNode0, rows, byNode)
      decreases todo
    {
      ghost var done := best.Keys - todo;
      var t :| t in todo;
      todo := todo - {t};
      assert best.Keys - todo == done + {t};
      var expand, dropped;
      expand, seen, next := Expand(q.repo, best, t, done, seen0, seen, next);
      ghost var rows1, byNode1 := rows, byNode;
      rows, byNode, dropped := EmitRow(q, via, best[t], expand, rows, byNode);
      if dropped {
        DroppedRow(q, via, RowAt(rows1, byNode1, t), best[t], expand, t, rows1, byNode1);
        assert RowDropped(q, via, best, seen0, rows0, byNode0, rows, byNode, t);
      }
      full := full || dropped;
    }
    assert best.Keys - {} == best.Keys;
  }

  lemma NothingExpanded(repo: Repo, best: map<Id, Hit>, seen0: set<Id>)
    ensures Expanded(repo, best, {}, seen0, seen0, [])
  {
  }

  lemma DroppedRow(q: Query, via: string, before: Option<Row>, h: Hit, expand: bool, t: Id, rows: seq<Row>, byNode: map<Id, RowBest>)
    requires before == RowAt(rows, byNode, t) && t !in byNode && Passes(q, h.edge) && expand
    ensures before == None && RowAfter(q, via, before, h, expand, true) == None
    ensures RowAfter(q, via, before, h, expand, false).Some?
  {
  }

  // ----- what every run guarantees

  /**
   A row is witnessed by a walk: from a seed, as long as the row's depth, along the follow
   list; its score is that seed's weight over one more than the depth, and the seed is
   credited with at least that much.
   */
  ghost predicate WitnessedBy(q: Query, seedScores: map<Id, real>, row: Row, s: Id)
    requires q.follow != []
  {
    && s in SeedIds(q.seeds)
    && row.depth > 0
    && WalkOf(q.repo, q.follow, s, row.edge.target, row.depth)
    && row.score == ScoreAt(WeightOf(q.seeds, s), row.depth)
    && s in seedScores && seedScores[s] >= row.score
  }

  ghost predicate Witnessed(q: Query, seedScores: map<Id, real>, row: Row)
    requires q.follow != []
  {
    exists s :: WitnessedBy(q, seedScores, row, s)
  }

  ghost predicate RowOk(q: Query, seedScores: map<Id, real>, row: Row)
    requires q.follow != []
  {
    && row.edge.target !in SeedIds(q.seeds)
    && Passes(q, row.edge)
    && row.depth <= q.depth
    && Witnessed(q, seedScores, row)
  }

  ghost predicate RowsOk(q: Query, seedScores: map<Id, real>, rows: seq<Row>)
    requires q.follow != []
  {
    && |rows| <= q.limit
    && (forall i, j :: 0 <= i < j < |rows| ==> rows[i].edge.target != rows[j].edge.target)
    && (forall i :: 0 <= i < |rows| ==> RowOk(q, seedScores, rows[i]))
  }

  ghost predicate FrontierNodeOk(q: Query, fn: FrontierNode, step: nat)
    requires q.follow != []
  {
    && fn.seed in SeedIds(q.seeds)
    && WalkOf(q.repo, q.follow, fn.seed, fn.id, step)
    && (step == 0 || q.repo.locate(fn.id))
  }

  /** The frontier before step `step`: distinct nodes, each with a walk from its seed, none scanned before. */
  ghost predicate FrontierOk(q: Query, frontier: seq<FrontierNode>, step: nat, scanned: seq<Id>, seen: set<Id>)
    requires q.follow != []
  {
    && DistinctIds(frontier)
    && (forall i :: 0 <= i < |frontier| ==> FrontierNodeOk(q, frontier[i], step))
    && (forall i :: 0 <= i < |frontier| ==> frontier[i].id in seen && frontier[i].id !in scanned)
    && (forall i :: 0 <= i < |scanned| ==> scanned[i] in seen)
    && (forall i, j :: 0 <= i < j < |scanned| ==> scanned[i] != scanned[j])
    && SeedIds(q.seeds) <= seen
  }

  /** The hits of a step come from frontier nodes, one edge further than their walks. */
  ghost predicate HitOk(q: Query, via: string, frontier: seq<FrontierNode>, step: nat, h: Hit) {
    && h.depth == step + 1
    && h.score == ScoreAt(WeightOf(q.seeds, h.seed), step + 1)
    && exists i :: 0 <= i < |frontier| && frontier[i].seed == h.seed && Steps(q.repo, via, frontier[i].id, h.edge.target)
  }

  lemma HitsAreOk(q: Query, via: string, frontier: seq<FrontierNode>, step: nat, h: Hit)
    requires h in AllHits(q, via, frontier, step + 1)
    ensures HitOk(q, via, frontier, step, h)
  {
    AllHitsIff(q, via, frontier, step + 1, h);
    var i :| 0 <= i < |frontier| && h in HitsOf(q, via, frontier[i], step + 1);
    var edges := q.repo.scan(via, frontier[i].id);
    var k :| 0 <= k < |edges| && h == HitsOf(q, via, frontier[i], step + 1)[k];
    assert edges[k].target == h.edge.target;
  }

  /** A hit's target is witnessed at the hit's depth and score. */
  lemma HitIsWitnessed(q: Query, frontier: seq<FrontierNode>, step: nat, h: Hit, seedScores: map<Id, real>, row: Row)
    requires q.follow != []
    requires forall i :: 0 <= i < |frontier| ==> FrontierNodeOk(q, frontier[i], step)
    requires HitOk(q, KindAt(q.follow, step), frontier, step, h)
    requires h.seed in seedScores && seedScores[h.seed] >= h.score
    requires row.edge.target == h.edge.target && row.depth == h.depth && row.score == h.score
    ensures Witnessed(q, seedScores, row)
  {
    hide WalkOf, Steps;
    var i :| 0 <= i < |frontier| && frontier[i].seed == h.seed && Steps(q.repo, KindAt(q.follow, step), frontier[i].id, h.edge.target);
    assert FrontierNodeOk(q, frontier[i], step);
    WalkExtends(q.repo, q.follow, h.seed, frontier[i].id, h.edge.target, step);
    assert WitnessedBy(q, seedScores, row, h.seed);
  }

  /** Crediting seeds only raises scores, so rows stay witnessed. */
  lemma StaysWitnessed(q: Query, before: map<Id, real>, after: map<Id, real>, row: Row)
    requires q.follow != [] && Witnessed(q, before, row)
    requires forall s :: s in before ==> s in after && after[s] >= before[s]
    ensures Witnessed(q, after, row)
  {
    var s :| WitnessedBy(q, before, row, s);
    assert WitnessedBy(q, after, row, s);
  }

  /** A row a step has changed or added takes its depth and score from the best hit on its target. */
  lemma ChangedRow(q: Query, via: string, best: map<Id, Hit>, seen0: set<Id>,
      rows0: seq<Row>, byNode0: map<Id, RowBest>, rows: seq<Row>, byNode: map<Id, RowBest>, full: bool, i: nat)
    requires Consistent(rows0, byNode0) && Consistent(rows, byNode) && i < |rows|
    requires RowsUpdated(q, via, best, best.Keys, seen0, rows0, byNode0, rows, byNode, full)
    requires forall t :: t in best ==> best[t].edge.target == t
    ensures var t := rows[i].edge.target;
      && RowAt(rows, byNode, t) == Some(rows[i])
      && (RowAt(rows0, byNode0, t) == Some(rows[i]) || (
          t in best
          && rows[i].depth == best[t].depth && rows[i].score == best[t].score
          && (RowAt(rows0, byNode0, t) == None ==> t !in seen0 && rows[i].edge == best[t].edge && Passes(q, rows[i].edge))
          && (RowAt(rows0, byNode0, t).Some? ==> rows[i].edge == RowAt(rows0, byNode0, t).value.edge)))
  {
    hide Passes, Better;
  }

  lemma RowAtIn(rows: seq<Row>, byNode: map<Id, RowBest>, t: Id)
    requires Consistent(rows, byNode) && RowAt(rows, byNode, t).Some?
    ensures RowAt(rows, byNode, t).value in rows && RowAt(rows, byNode, t).value.edge.target == t
  {
  }

  /** Every row after a step is sound, given that those before it were. */
  lemma StepKeepsRowOk(q: Query, frontier: seq<FrontierNode>, step: nat, hits: seq<Hit>, best: map<Id, Hit>,
      scores0: map<Id, real>, scores: map<Id, real>, seen0: set<Id>,
      rows0: seq<Row>, byNode0: map<Id, RowBest>, rows: seq<Row>, byNode: map<Id, RowBest>, full: bool, i: nat)
    requires q.follow != [] && step < q.depth
    requires forall k :: 0 <= k < |frontier| ==> FrontierNodeOk(q, frontier[k], step)
    requires SeedIds(q.seeds) <= seen0
    requires hits == AllHits(q, KindAt(q.follow, step), frontier, step + 1)
    requires BestPerTarget(hits, best) && Credited(scores0, hits, scores)
    requires RowsOk(q, scores0, rows0) && Consistent(rows0, byNode0) && Consistent(rows, byNode)
    requires RowsUpdated(q, KindAt(q.follow, step), best, best.Keys, seen0, rows0, byNode0, rows, byNode, full)
    requires i < |rows|
    ensures RowOk(q, scores, rows[i])
  {
    hide Witnessed, HitOk, FrontierNodeOk, AllHits, Better, RowsUpdated, RowAt, Consistent, Passes;
    var row := rows[i];
    var t := row.edge.target;
    ChangedRow(q, KindAt(q.follow, step), best, seen0, rows0, byNode0, rows, byNode, full, i);
    var old' := RowAt(rows0, byNode0, t);
    if old'.Some? {
      RowAtIn(rows0, byNode0, t);
      assert RowOk(q, scores0, old'.value);
      StaysWitnessed(q, scores0, scores, old'.value);
    }
    if old' != Some(row) {
      var h := best[t];
      HitsAreOk(q, KindAt(q.follow, step), frontier, step, h);
      HitDepth(q, KindAt(q.follow, step), frontier, step, h);
      HitIsWitnessed(q, frontier, step, h, scores, row);
    }
  }

  lemma HitDepth(q: Query, via: string, frontier: seq<FrontierNode>, step: nat, h: Hit)
    requires HitOk(q, via, frontier, step, h)
    ensures h.depth == step + 1
  {
  }

  lemma ConsistentIsDistinct(rows: seq<Row>, byNode: map<Id, RowBest>)
    requires Consistent(rows, byNode)
    ensures forall i, j :: 0 <= i < j < |rows| ==> rows[i].edge.target != rows[j].edge.target
  {
  }

  lemma NextNodeOk(q: Query, frontier: seq<FrontierNode>, step: nat, h: Hit, fn: FrontierNode)
    requires q.follow != []
    requires forall k :: 0 <= k < |frontier| ==> FrontierNodeOk(q, frontier[k], step)
    requires HitOk(q, KindAt(q.follow, step), frontier, step, h)
    requires fn == FrontierNode(h.edge.target, h.seed) && q.repo.locate(fn.id)
    ensures FrontierNodeOk(q, fn, step + 1)
  {
    hide WalkOf, Steps;
    var i :| 0 <= i < |frontier| && frontier[i].seed == h.seed && Steps(q.repo, KindAt(q.follow, step), frontier[i].id, h.edge.target);
    assert FrontierNodeOk(q, frontier[i], step);
    WalkExtends(q.repo, q.follow, h.seed, frontier[i].id, h.edge.target, step);
  }

  lemma StepKeepsFrontier(q: Query, frontier: seq<FrontierNode>, step: nat, hits: seq<Hit>, best: map<Id, Hit>,
      scanned0: seq<Id>, scanned: seq<Id>, seen0: set<Id>, seen: set<Id>, next: seq<FrontierNode>)
    requires q.follow != []
    requires FrontierOk(q, frontier, step, scanned0, seen0)
    requires hits == AllHits(q, KindAt(q.follow, step), frontier, step + 1) && BestPerTarget(hits, best)
    requires scanned == scanned0 + Ids(frontier)
    requires Expanded(q.repo, best, best.Keys, seen0, seen, next)
    ensures FrontierOk(q, next, step + 1, scanned, seen)
  {
    hide FrontierNodeOk, AllHits, HitOk, InFrontier;
    forall i | 0 <= i < |next|
      ensures FrontierNodeOk(q, next[i], step + 1)
      ensures next[i].id in seen && next[i].id !in scanned
    {
      var t := next[i].id;
      HitsAreOk(q, KindAt(q.follow, step), frontier, step, best[t]);
      NextNodeOk(q, frontier, step, best[t], next[i]);
    }
    ScannedStaysDistinct(frontier, scanned0, scanned);
  }

  lemma ScannedStaysDistinct(frontier: seq<FrontierNode>, scanned0: seq<Id>, scanned: seq<Id>)
    requires DistinctIds(frontier) && scanned <= scanned0 + Ids(frontier)
    requires forall i :: 0 <= i < |frontier| ==> frontier[i].id !in scanned0
    requires forall i, j :: 0 <= i < j < |scanned0| ==> scanned0[i] != scanned0[j]
    ensures forall i, j :: 0 <= i < j < |scanned| ==> scanned[i] != scanned[j]
  {
    var all := scanned0 + Ids(frontier);
    forall i, j | 0 <= i < j < |scanned| ensures scanned[i] != scanned[j] {
      assert scanned[i] == all[i] && scanned[j] == all[j];
      if j >= |scanned0| {
        assert all[j] == frontier[j - |scanned0|].id;
        if i < |scanned0| { assert all[i] in scanned0; }
        else { assert all[i] == frontier[i - |scanned0|].id; }
      }
    }
  }
}
