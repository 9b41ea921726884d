/** `importCycles`: which files lie on an import cycle, read off the components. */
module ImportCycles {
  import opened Wrappers
  import opened Sorting
  import opened Graphs
  import opened TarjanState
  import opened Architecture

  const MAX_CYCLE_FILES: nat := 20
  const MAX_CYCLES_RETURNED: nat := 10

  /** What the repository says of imports: the entries of a file, and the file an entry resolves to, if local. */
  datatype Imports = Imports(entries: Node -> seq<string>, resolve: (Node, string) -> Option<Node>)

  /** The distinct local files that `f` imports. */
  ghost function Targets(im: Imports, f: Node): set<Node> {
    set path | path in im.entries(f) && im.resolve(f, path).Some? :: im.resolve(f, path).value
  }

  /** The import graph: a row for each file with a local import. */
  ghost function ImportGraph(files: seq<Node>, im: Imports): Graph {
    map f | f in files && Targets(im, f) != {} :: Targets(im, f)
  }

  method TargetsOf(im: Imports, f: Node) returns (out: set<Node>)
    ensures out == Targets(im, f)
  {
    out := {};
    var entries := im.entries(f);
    for i := 0 to |entries|
      invariant out == set path | path in entries[..i] && im.resolve(f, path).Some? :: im.resolve(f, path).value
    {
      assert entries[..i + 1] == entries[..i] + [entries[i]];
      match im.resolve(f, entries[i])
      case None =>
      case Some(target) => out := out + {target};
    }
    assert entries[..|entries|] == entries;
  }

  method BuildAdjacency(files: seq<Node>, im: Imports) returns (adj: Graph)
    ensures adj == ImportGraph(files, im)
  {
    hide Targets;
    adj := map[];
    for i := 0 to |files|
      invariant adj == ImportGraph(files[..i], im)
    {
      assert files[..i + 1] == files[..i] + [files[i]];
      if im.entries(files[i]) == [] {
        NoTargets(im, files[i]);
        continue;
      }
      var out := TargetsOf(im, files[i]);
      if |out| > 0 {
        adj := adj[files[i] := out];
      }
    }
    assert files[..|files|] == files;
  }

  lemma NoTargets(im: Imports, f: Node)
    requires im.entries(f) == []
    ensures Targets(im, f) == {}
  {
  }

  predicate IsCycle(adj: Graph, comp: seq<Node>) {
    |comp| > 1 || (|comp| == 1 && Edge(adj, comp[0], comp[0]))
  }

  function Trim(comp: seq<Node>): seq<Node> {
    if |comp| > MAX_CYCLE_FILES then comp[..MAX_CYCLE_FILES] else comp
  }

  /** `comp` is the sorted strongly connected component of `f`. */
  ghost predicate ComponentOf(g: Graph, f: Node, comp: seq<Node>) {
    && SortedBy(StringLe, comp) && Distinct(comp)
    && forall v :: v in comp <==> Reaches(g, f, v) && Reaches(g, v, f)
  }

  lemma EmittedIsComponent(g: Graph, nodes: seq<Node>, sccs: seq<seq<Node>>, i: nat, f: Node)
    requires Condensation(g, nodes, sccs)
    requires i < |sccs| && f in sccs[i]
    ensures ComponentOf(g, f, sccs[i])
  {
    hide Reaches;
    forall v | Reaches(g, f, v) && Reaches(g, v, f) ensures v in sccs[i] {
      assert Emitted(sccs, f);
      var n :| n in nodes && Reaches(g, n, f);
      ReachesTransitive(g, n, f, v);
      assert Emitted(sccs, v);
      var j :| 0 <= j < |sccs| && v in sccs[j];
    }
  }

  /** A component is a cycle in the code's sense exactly when its nodes lie on directed cycles. */
  lemma CycleIffOnCycle(g: Graph, f: Node, comp: seq<Node>)
    requires ComponentOf(g, f, comp)
    ensures f in comp
    ensures IsCycle(g, comp) <==> OnCycle(g, f)
  {
    hide Reaches, OnCycle;
    ReachesSelf(g, f);
    OnCycleIff(g, f);
    if |comp| > 1 {
      var v :| v in comp && v != f by { assert comp[0] != comp[1]; assert comp[0] in comp && comp[1] in comp; }
      var w := FirstStep(g, f, v);
      ReachesTransitive(g, w, v, f);
    } else {
      assert comp == [f];
      if w :| Edge(g, f, w) && Reaches(g, w, f) {
        ReachesEdge(g, f, w);
        assert w in comp;
      }
      if Edge(g, f, f) { assert Edge(g, f, f) && Reaches(g, f, f); }
    }
  }

  lemma FirstStep(g: Graph, u: Node, v: Node) returns (w: Node)
    requires Reaches(g, u, v) && u != v
    ensures Edge(g, u, w) && Reaches(g, w, v)
  {
    var p :| Walk(g, p) && p[0] == u && p[|p| - 1] == v;
    w := p[1];
    assert Edge(g, p[0], p[1]);
    var q := p[1..];
    assert forall i :: 0 <= i < |q| ==> q[i] == p[i + 1];
    assert Walk(g, q) && q[0] == w && q[|q| - 1] == v;
  }

  /**
   What the caller of `importCycles` may rely on: the listed files lie on cycles, each list is
   one whole component up to the trim, no component is listed twice or before one it imports,
   and nothing is missing unless the list is full.
   */
  ghost predicate CyclesReported(g: Graph, cycles: seq<seq<Node>>, truncated: bool) {
    && |cycles| <= 10
    && (truncated <==> |cycles| == 10)
    && (forall i :: 0 <= i < |cycles| ==> 0 < |cycles[i]| <= 20)
    && (forall i, f :: 0 <= i < |cycles| && f in cycles[i] ==>
          OnCycle(g, f) && exists comp :: ComponentOf(g, f, comp) && cycles[i] == Trim(comp))
    && (!truncated ==> forall f :: OnCycle(g, f) ==>
          exists i, comp :: 0 <= i < |cycles| && ComponentOf(g, f, comp) && cycles[i] == Trim(comp))
    && (forall i, j, f, h :: 0 <= i < |cycles| && 0 <= j < |cycles| && f in cycles[i] && h in cycles[j] ==>
          (i == j <==> Reaches(g, f, h) && Reaches(g, h, f)) && (Reaches(g, f, h) ==> j <= i))
  }

  method ImportCycles(files: seq<Node>, im: Imports) returns (cycles: seq<seq<Node>>, truncated: bool)
    ensures CyclesReported(ImportGraph(files, im), cycles, truncated)
  {
    var adj := BuildAdjacency(files, im);
    var sccs := TarjanSCC(files, adj);
    cycles, truncated := ReadCycles(files, adj, sccs);
  }

  /** The cyclic components in the order they were emitted, trimmed, at most ten of them. */
  method ReadCycles(files: seq<Node>, adj: Graph, sccs: seq<seq<Node>>) returns (cycles: seq<seq<Node>>, truncated: bool)
    requires Condensation(adj, files, sccs)
    requires forall u, v :: Edge(adj, u, v) ==> u in files
    ensures CyclesReported(adj, cycles, truncated)
  {
    hide Condensation, CyclesReported, IsCycle, Trim, SortedBy, StringLe;
    cycles, truncated := [], false;
    ghost var from: seq<nat> := [];
    for i := 0 to |sccs|
      invariant |cycles| < MAX_CYCLES_RETURNED && |from| == |cycles|
      invariant forall c, d :: 0 <= c < d < |from| ==> from[c] < from[d]
      invariant forall c :: 0 <= c < |from| ==> from[c] < i && IsCycle(adj, sccs[from[c]]) && cycles[c] == Trim(sccs[from[c]])
      invariant forall k :: 0 <= k < i && IsCycle(adj, sccs[k]) ==> k in from
    {
      if IsCycle(adj, sccs[i]) {
        var sorted := SortStrings(sccs[i]);
        AlreadySorted(adj, files, sccs, i);
        cycles := cycles + [Trim(sorted)];
        from := from + [i];
        if |cycles| >= MAX_CYCLES_RETURNED {
          truncated := true;
          ListedCycles(files, adj, sccs, from, cycles, truncated);
          return;
        }
      }
    }
    ListedCycles(files, adj, sccs, from, cycles, truncated);
  }

  lemma AlreadySorted(g: Graph, files: seq<Node>, sccs: seq<seq<Node>>, i: nat)
    requires Condensation(g, files, sccs) && i < |sccs|
    ensures SortStrings(sccs[i]) == sccs[i]
  {
    hide Reaches, StringLe;
    StringLeIsTotalOrder();
    SortedIsUnique(StringLe, SortStrings(sccs[i]), sccs[i]);
  }

  /** Two components, or one taken twice, keep the order and the separation of the whole list. */
  lemma ComponentOrder(g: Graph, files: seq<Node>, sccs: seq<seq<Node>>, i: nat, j: nat, f: Node, h: Node)
    requires Condensation(g, files, sccs) && i < |sccs| && j < |sccs| && f in sccs[i] && h in sccs[j]
    ensures i == j <==> Reaches(g, f, h) && Reaches(g, h, f)
    ensures Reaches(g, f, h) ==> j <= i
  {
    hide Reaches, SortedBy, Distinct, Emitted;
  }

  lemma ComponentNotEmpty(g: Graph, files: seq<Node>, sccs: seq<seq<Node>>, i: nat)
    requires Condensation(g, files, sccs) && i < |sccs|
    ensures sccs[i] != []
  {
    hide Reaches, SortedBy, Distinct, Emitted;
  }

  lemma ListedCycles(files: seq<Node>, adj: Graph, sccs: seq<seq<Node>>, from: seq<nat>, cycles: seq<seq<Node>>, truncated: bool)
    requires Condensation(adj, files, sccs)
    requires forall u, v :: Edge(adj, u, v) ==> u in files
    requires |from| == |cycles| <= MAX_CYCLES_RETURNED && (truncated <==> |cycles| == MAX_CYCLES_RETURNED)
    requires forall c, d :: 0 <= c < d < |from| ==> from[c] < from[d]
    requires forall c :: 0 <= c < |from| ==> from[c] < |sccs| && IsCycle(adj, sccs[from[c]]) && cycles[c] == Trim(sccs[from[c]])
    requires !truncated ==> forall k :: 0 <= k < |sccs| && IsCycle(adj, sccs[k]) ==> k in from
    ensures CyclesReported(adj, cycles, truncated)
  {
    hide Condensation, ComponentOf, OnCycle, Reaches;
    forall c, f | 0 <= c < |cycles| && f in cycles[c]
      ensures OnCycle(adj, f) && exists comp :: ComponentOf(adj, f, comp) && cycles[c] == Trim(comp)
    {
      EmittedIsComponent(adj, files, sccs, from[c], f);
      CycleIffOnCycle(adj, f, sccs[from[c]]);
    }
    forall c | 0 <= c < |cycles| ensures 0 < |cycles[c]| <= MAX_CYCLE_FILES {
      ComponentNotEmpty(adj, files, sccs, from[c]);
    }
    forall c, d, f, h | 0 <= c < |cycles| && 0 <= d < |cycles| && f in cycles[c] && h in cycles[d]
      ensures (c == d <==> Reaches(adj, f, h) && Reaches(adj, h, f)) && (Reaches(adj, f, h) ==> d <= c)
    {
      ComponentOrder(adj, files, sccs, from[c], from[d], f, h);
    }
    if !truncated {
      forall f | OnCycle(adj, f)
        ensures exists i, comp :: 0 <= i < |cycles| && ComponentOf(adj, f, comp) && cycles[i] == Trim(comp)
      {
        var k := CyclicIsEmitted(files, adj, sccs, f);
        EmittedIsComponent(adj, files, sccs, k, f);
        CycleIffOnCycle(adj, f, sccs[k]);
        var c :| 0 <= c < |from| && from[c] == k;
      }
    }
  }

  lemma CyclicIsEmitted(files: seq<Node>, adj: Graph, sccs: seq<seq<Node>>, f: Node) returns (k: nat)
    requires Condensation(adj, files, sccs)
    requires forall u, v :: Edge(adj, u, v) ==> u in files
    requires OnCycle(adj, f)
    ensures k < |sccs| && f in sccs[k]
  {
    hide Reaches;
    OnCycleIff(adj, f);
    ReachesSelf(adj, f);
    assert Emitted(sccs, f);
    k :| 0 <= k < |sccs| && f in sccs[k];
  }

  // ----- the graph, and what the trim keeps

  /** A file imports another, or itself, exactly if one of its entries resolves to it. */
  lemma EdgeIsImport(files: seq<Node>, im: Imports, f: Node, g: Node)
    ensures Edge(ImportGraph(files, im), f, g) <==>
      f in files && exists i :: 0 <= i < |im.entries(f)| && im.resolve(f, im.entries(f)[i]) == Some(g)
  {
    if i :| 0 <= i < |im.entries(f)| && im.resolve(f, im.entries(f)[i]) == Some(g) {
      assert im.entries(f)[i] in im.entries(f);
      assert g in Targets(im, f);
    }
  }

  /** A list has its component's files in string order: all of them, or the first twenty. */
  lemma ListedAreFirst(g: Graph, cycles: seq<seq<Node>>, truncated: bool, i: nat, f: Node, v: Node)
    requires CyclesReported(g, cycles, truncated) && i < |cycles| && f in cycles[i]
    requires Reaches(g, f, v) && Reaches(g, v, f)
    ensures v in cycles[i] || (|cycles[i]| == 20 && forall u :: u in cycles[i] ==> LessText(u, v))
    ensures forall a, b :: 0 <= a < b < |cycles[i]| ==> LessText(cycles[i][a], cycles[i][b])
  {
    var comp := ComponentListed(g, cycles, truncated, i, f);
    hide Reaches, OnCycle;
    forall a, b | 0 <= a < b < |comp| ensures LessText(comp[a], comp[b]) { StringLeIff(comp[a], comp[b]); }
    assert v in comp;
  }

  lemma ComponentListed(g: Graph, cycles: seq<seq<Node>>, truncated: bool, i: nat, f: Node) returns (comp: seq<Node>)
    requires CyclesReported(g, cycles, truncated) && i < |cycles| && f in cycles[i]
    ensures ComponentOf(g, f, comp) && cycles[i] == Trim(comp)
  {
    assert OnCycle(g, f) && exists c :: ComponentOf(g, f, c) && cycles[i] == Trim(c);
    comp :| ComponentOf(g, f, comp) && cycles[i] == Trim(comp);
  }
}
