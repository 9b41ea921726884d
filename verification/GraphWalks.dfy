/**
 The graph `query_graph` walks: nodes are symbol ids, and the edges of one kind out of a
 node are what the scanner of that kind returns for the symbol the id locates.
 */
module GraphWalks {
  type Id = string

  /** The part of a scanner's result the traversal looks at. */
  datatype Edge = Edge(target: Id, targetKind: string, file: string, detail: string)

  /**
   `scan(kind, id)` is the scanner run on the symbol `id` names; `locate(id)` says whether
   the repository finds that symbol. Both are fixed for one query.
   */
  datatype Repo = Repo(scan: (string, Id) -> seq<Edge>, locate: Id -> bool)

  predicate Steps(repo: Repo, kind: string, u: Id, v: Id) {
    exists i :: 0 <= i < |repo.scan(kind, u)| && repo.scan(kind, u)[i].target == v
  }

  /** The kind of the `i`-th edge of a walk: the follow list, repeated. */
  function KindAt(follow: seq<string>, i: nat): string
    requires follow != []
  {
    follow[i % |follow|]
  }

  /** A walk along the follow list; every node it leaves, except the first, can be located. */
  ghost predicate Walk(repo: Repo, follow: seq<string>, p: seq<Id>)
    requires follow != []
  {
    && p != []
    && (forall i :: 0 <= i < |p| - 1 ==> Steps(repo, KindAt(follow, i), p[i], p[i + 1]))
    && (forall i :: 0 < i < |p| - 1 ==> repo.locate(p[i]))
  }

  /** There is a walk of exactly `n` edges from `s` to `v`. */
  ghost predicate WalkOf(repo: Repo, follow: seq<string>, s: Id, v: Id, n: nat)
    requires follow != []
  {
    exists p :: Walk(repo, follow, p) && |p| == n + 1 && p[0] == s && p[n] == v
  }

  lemma WalkOfNothing(repo: Repo, follow: seq<string>, s: Id)
    requires follow != []
    ensures WalkOf(repo, follow, s, s, 0)
  {
    assert Walk(repo, follow, [s]);
  }

  lemma WalkExtends(repo: Repo, follow: seq<string>, s: Id, u: Id, v: Id, n: nat)
    requires follow != []
    requires WalkOf(repo, follow, s, u, n) && Steps(repo, KindAt(follow, n), u, v)
    requires n == 0 || repo.locate(u)
    ensures WalkOf(repo, follow, s, v, n + 1)
  {
    var p :| Walk(repo, follow, p) && |p| == n + 1 && p[0] == s && p[n] == u;
    var q := p + [v];
    assert Walk(repo, follow, q);
  }

  lemma WalkShortens(repo: Repo, follow: seq<string>, s: Id, v: Id, n: nat) returns (u: Id)
    requires follow != []
    requires WalkOf(repo, follow, s, v, n + 1)
    ensures WalkOf(repo, follow, s, u, n) && Steps(repo, KindAt(follow, n), u, v)
    ensures n == 0 || repo.locate(u)
  {
    var p :| Walk(repo, follow, p) && |p| == n + 2 && p[0] == s && p[n + 1] == v;
    u := p[n];
    var q := p[..n + 1];
    assert Walk(repo, follow, q);
  }

  // ----- one kind of edge: levels and distances

  /** The nodes reached in at most `n` steps along edges of one kind. */
  ghost function Within(repo: Repo, kind: string, seeds: set<Id>, n: nat): set<Id>
    decreases n
  {
    if n == 0 then seeds
    else Within(repo, kind, seeds, n - 1) + Targets(repo, kind, Frontier(repo, kind, seeds, n - 1))
  }

  /** The nodes expanded at step `n`: first reached at distance `n`, and located. */
  ghost function Frontier(repo: Repo, kind: string, seeds: set<Id>, n: nat): set<Id>
    decreases n
  {
    if n == 0 then seeds
    else set v | v in Targets(repo, kind, Frontier(repo, kind, seeds, n - 1)) && v !in Within(repo, kind, seeds, n - 1) && repo.locate(v)
  }

  ghost function Targets(repo: Repo, kind: string, from: set<Id>): set<Id> {
    set u, i | u in from && 0 <= i < |repo.scan(kind, u)| :: repo.scan(kind, u)[i].target
  }

  lemma TargetsIff(repo: Repo, kind: string, from: set<Id>, v: Id)
    ensures v in Targets(repo, kind, from) <==> exists u :: u in from && Steps(repo, kind, u, v)
  {
    if v in Targets(repo, kind, from) {
      var u, i :| u in from && 0 <= i < |repo.scan(kind, u)| && repo.scan(kind, u)[i].target == v;
      assert Steps(repo, kind, u, v);
    }
  }

  lemma {:induction false} WithinGrows(repo: Repo, kind: string, seeds: set<Id>, m: nat, n: nat)
    requires m <= n
    ensures Within(repo, kind, seeds, m) <= Within(repo, kind, seeds, n)
    decreases n
  {
    if m < n { WithinGrows(repo, kind, seeds, m, n - 1); }
  }

  /** The follow list asks for one kind of edge only. */
  predicate OneKind(follow: seq<string>, kind: string) {
    follow != [] && forall i :: 0 <= i < |follow| ==> follow[i] == kind
  }

  /** Some seed has a walk of `n` edges to `v`. */
  ghost predicate WalkFromSeeds(repo: Repo, follow: seq<string>, seeds: set<Id>, v: Id, n: nat)
    requires follow != []
  {
    exists s :: s in seeds && WalkOf(repo, follow, s, v, n)
  }

  /** `n` is the length of a shortest walk from a seed to `v`. */
  ghost predicate Distance(repo: Repo, follow: seq<string>, seeds: set<Id>, v: Id, n: nat)
    requires follow != []
  {
    WalkFromSeeds(repo, follow, seeds, v, n) && forall m :: 0 <= m < n ==> !WalkFromSeeds(repo, follow, seeds, v, m)
  }

  /** A frontier node has a walk as long as its step number. */
  lemma {:induction false} FrontierHasWalk(repo: Repo, follow: seq<string>, kind: string, seeds: set<Id>, n: nat, v: Id)
    requires OneKind(follow, kind)
    requires v in Frontier(repo, kind, seeds, n)
    ensures WalkFromSeeds(repo, follow, seeds, v, n)
    ensures n == 0 || repo.locate(v)
    decreases n, 0
  {
    if n == 0 {
      WalkOfNothing(repo, follow, v);
    } else {
      var u := HitHasWalk(repo, follow, kind, seeds, n - 1, v);
    }
  }

  lemma {:induction false} HitHasWalk(repo: Repo, follow: seq<string>, kind: string, seeds: set<Id>, n: nat, v: Id) returns (u: Id)
    requires OneKind(follow, kind)
    requires v in Targets(repo, kind, Frontier(repo, kind, seeds, n))
    ensures u in Frontier(repo, kind, seeds, n) && Steps(repo, kind, u, v)
    ensures WalkFromSeeds(repo, follow, seeds, v, n + 1)
    decreases n, 1
  {
    TargetsIff(repo, kind, Frontier(repo, kind, seeds, n), v);
    u :| u in Frontier(repo, kind, seeds, n) && Steps(repo, kind, u, v);
    FrontierHasWalk(repo, follow, kind, seeds, n, u);
    var s :| s in seeds && WalkOf(repo, follow, s, u, n);
    WalkExtends(repo, follow, s, u, v, n);
  }

  lemma WithinStep(repo: Repo, kind: string, seeds: set<Id>, n: nat, v: Id)
    requires n > 0 && v in Within(repo, kind, seeds, n) && v !in Within(repo, kind, seeds, n - 1)
    ensures v in Targets(repo, kind, Frontier(repo, kind, seeds, n - 1))
  {
  }

  lemma {:induction false} WithinHasWalk(repo: Repo, follow: seq<string>, kind: string, seeds: set<Id>, n: nat, v: Id) returns (m: nat)
    requires OneKind(follow, kind)
    requires v in Within(repo, kind, seeds, n)
    ensures m <= n && WalkFromSeeds(repo, follow, seeds, v, m)
  {
    if n == 0 {
      WalkOfNothing(repo, follow, v);
      m := 0;
      return;
    }
    hide Within, Targets, Frontier, WalkFromSeeds, OneKind;
    if v in Within(repo, kind, seeds, n - 1) {
      m := WithinHasWalk(repo, follow, kind, seeds, n - 1, v);
    } else {
      WithinStep(repo, kind, seeds, n, v);
      var u := HitHasWalk(repo, follow, kind, seeds, n - 1, v);
      m := n;
    }
  }

  /** The level a node first appears at. */
  lemma {:induction false} FirstLevel(repo: Repo, kind: string, seeds: set<Id>, n: nat, v: Id) returns (d: nat)
    requires v in Within(repo, kind, seeds, n)
    ensures d <= n && v in Within(repo, kind, seeds, d)
    ensures d > 0 ==> v !in Within(repo, kind, seeds, d - 1)
  {
    if n == 0 || v !in Within(repo, kind, seeds, n - 1) { d := n; }
    else { d := FirstLevel(repo, kind, seeds, n - 1, v); }
  }

  lemma {:induction false} WalkStaysWithin(repo: Repo, follow: seq<string>, kind: string, seeds: set<Id>, s: Id, v: Id, n: nat)
    requires OneKind(follow, kind)
    requires s in seeds && WalkOf(repo, follow, s, v, n)
    ensures v in Within(repo, kind, seeds, n)
    decreases n
  {
    if n > 0 {
      var u := WalkShortens(repo, follow, s, v, n - 1);
      hide WalkOf;
      WalkStaysWithin(repo, follow, kind, seeds, s, u, n - 1);
      StepStaysWithin(repo, kind, seeds, u, v, n - 1);
    }
  }

  /** A located node is in the frontier of the level it is first reached at. */
  lemma FirstLevelIsFrontier(repo: Repo, kind: string, seeds: set<Id>, n: nat, v: Id) returns (d: nat)
    requires v in Within(repo, kind, seeds, n) && (n > 0 ==> repo.locate(v))
    ensures d <= n && v in Frontier(repo, kind, seeds, d)
  {
    d := FirstLevel(repo, kind, seeds, n, v);
    if d > 0 { WithinStep(repo, kind, seeds, d, v); }
  }

  lemma StepStaysWithin(repo: Repo, kind: string, seeds: set<Id>, u: Id, v: Id, n: nat)
    requires u in Within(repo, kind, seeds, n) && Steps(repo, kind, u, v)
    requires n > 0 ==> repo.locate(u)
    ensures v in Within(repo, kind, seeds, n + 1)
  {
    var d := FirstLevelIsFrontier(repo, kind, seeds, n, u);
    TargetsIff(repo, kind, Frontier(repo, kind, seeds, d), v);
    WithinGrows(repo, kind, seeds, d + 1, n + 1);
  }

  /** The first level a node appears at is its distance. */
  lemma DistanceIsFirstLevel(repo: Repo, follow: seq<string>, kind: string, seeds: set<Id>, v: Id, n: nat)
    requires OneKind(follow, kind)
    ensures Distance(repo, follow, seeds, v, n) <==>
      v in Within(repo, kind, seeds, n) && (n == 0 || v !in Within(repo, kind, seeds, n - 1))
  {
    hide WalkOf;
    if v in Within(repo, kind, seeds, n) && (n == 0 || v !in Within(repo, kind, seeds, n - 1)) {
      var m := WithinHasWalk(repo, follow, kind, seeds, n, v);
      forall k | 0 <= k < n ensures !WalkFromSeeds(repo, follow, seeds, v, k) {
        if WalkFromSeeds(repo, follow, seeds, v, k) {
          var s :| s in seeds && WalkOf(repo, follow, s, v, k);
          WalkStaysWithin(repo, follow, kind, seeds, s, v, k);
          WithinGrows(repo, kind, seeds, k, n - 1);
        }
      }
    }
    if Distance(repo, follow, seeds, v, n) {
      var s :| s in seeds && WalkOf(repo, follow, s, v, n);
      WalkStaysWithin(repo, follow, kind, seeds, s, v, n);
      if n > 0 && v in Within(repo, kind, seeds, n - 1) {
        var m := WithinHasWalk(repo, follow, kind, seeds, n - 1, v);
      }
    }
  }

  /** An empty frontier stays empty, and nothing more is reached. */
  lemma {:induction false} EmptyFrontierEnds(repo: Repo, kind: string, seeds: set<Id>, n: nat, m: nat)
    requires Frontier(repo, kind, seeds, n) == {} && n <= m
    ensures Frontier(repo, kind, seeds, m) == {} && Within(repo, kind, seeds, m) == Within(repo, kind, seeds, n)
    decreases m
  {
    if n < m {
      EmptyFrontierEnds(repo, kind, seeds, n, m - 1);
      assert Targets(repo, kind, {}) == {};
    }
  }
}
