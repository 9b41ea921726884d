/**
 Import cycles (`internal/tool/architecture.go`): strongly connected components by an
 iterative depth-first search over two explicit stacks, and the cycles read off them.
 */
module Architecture {
  import opened Sorting
  import opened Graphs
  import opened TarjanState
  import TarjanVisit
  import TarjanLook
  import TarjanFinish

  /** The keys of one adjacency row, sorted; a node without a row has none. */
  method KeysSorted(adj: Graph, n: Node) returns (out: seq<Node>)
    ensures forall w :: w in out <==> Edge(adj, n, w)
    ensures SortedBy(StringLe, out) && Distinct(out)
  {
    var keys := SetToSeq(if n in adj then adj[n] else {});
    out := SortStrings(keys);
    SameElements(keys, out);
    DistinctPermutation(keys, out);
  }

  /** Every visited node is reachable from a node of the input. */
  ghost predicate Rooted(g: Graph, nodes: seq<Node>, visited: set<Node>) {
    forall v :: v in visited ==> exists n :: n in nodes && Reaches(g, n, v)
  }

  ghost function Universe(g: Graph, nodes: seq<Node>): set<Node> {
    (set n | n in nodes) + (set u, v | u in g && v in g[u] :: v)
  }

  ghost predicate Within(calls: seq<Frame>) {
    forall k :: 0 <= k < |calls| ==> calls[k].it <= |calls[k].children|
  }

  /** Work left on the call stack: children not looked at, and frames not finished. */
  ghost function Remaining(calls: seq<Frame>): nat
    requires Within(calls)
  {
    if calls == [] then 0
    else
      var t := calls[|calls| - 1];
      Remaining(calls[..|calls| - 1]) + (|t.children| - t.it) + 1
  }

  lemma RootedStep(g: Graph, nodes: seq<Node>, visited: set<Node>, u: Node, w: Node)
    requires Rooted(g, nodes, visited) && u in visited && Edge(g, u, w)
    ensures Rooted(g, nodes, visited + {w})
  {
    hide Reaches;
    var n :| n in nodes && Reaches(g, n, u);
    ReachesEdge(g, u, w);
    ReachesTransitive(g, n, u, w);
  }

  /** Facts about the two stacks the code relies on. */
  lemma StackFacts(s: State)
    requires Indexed(s)
    ensures s.lowlink.Keys == s.indexOf.Keys
    ensures forall v :: v in s.onStack <==> v in s.stack
    ensures forall v :: v in s.onStack ==> v in s.indexOf
    ensures Increasing(s.stack, s.indexOf)
  {
  }

  lemma CallFacts(g: Graph, s: State)
    requires Indexed(s) && Frames(g, s)
    ensures forall k :: 0 <= k < |s.calls| ==> s.calls[k].it <= |s.calls[k].children|
    ensures forall k :: 0 <= k < |s.calls| ==> s.calls[k].node in s.onStack
  {
    hide Reaches, Edge, Indexed;
    forall k | 0 <= k < |s.calls| ensures s.calls[k].it <= |s.calls[k].children| { assert FrameOk(g, s, s.calls[k]); }
  }

  lemma ChildIsEdge(g: Graph, s: State)
    requires Indexed(s) && Frames(g, s)
    requires s.calls != [] && s.calls[|s.calls| - 1].it < |s.calls[|s.calls| - 1].children|
    ensures var t := s.calls[|s.calls| - 1]; Edge(g, t.node, t.children[t.it])
  {
    hide Reaches, Edge, Indexed;
    var t := s.calls[|s.calls| - 1];
    assert FrameOk(g, s, t);
    assert t.children[t.it] in t.children;
  }

  ghost predicate Increasing(stack: seq<Node>, indexOf: map<Node, nat>) {
    && (forall i :: 0 <= i < |stack| ==> stack[i] in indexOf)
    && (forall i, j :: 0 <= i < j < |stack| ==> indexOf[stack[i]] < indexOf[stack[j]])
  }

  /** The part of the stack from `v` up, in the order it is popped. */
  ghost predicate PoppedDownTo(stack: seq<Node>, p: nat, comp: seq<Node>) {
    && p <= |stack|
    && |comp| == |stack| - p
    && forall i :: 0 <= i < |comp| ==> comp[i] == stack[|stack| - 1 - i]
  }

  lemma PoppedNodes(stack: seq<Node>, p: nat, comp: seq<Node>, indexOf: map<Node, nat>, v: Node)
    requires Increasing(stack, indexOf) && PoppedDownTo(stack, p, comp)
    requires p < |stack| && stack[p] == v
    ensures forall x :: x in comp <==> x in stack && indexOf[x] >= indexOf[v]
    ensures forall x :: x in stack[..p] <==> x in stack && x !in comp
    ensures Distinct(comp)
  {
    forall x | x in comp ensures x in stack && indexOf[x] >= indexOf[v] {
      var i :| 0 <= i < |comp| && comp[i] == x;
      assert x == stack[|stack| - 1 - i];
    }
    forall x | x in stack && indexOf[x] >= indexOf[v] ensures x in comp {
      var i :| 0 <= i < |stack| && stack[i] == x;
      assert comp[|stack| - 1 - i] == x;
    }
    forall x | x in stack && x !in comp ensures x in stack[..p] {
      var i :| 0 <= i < |stack| && stack[i] == x;
      assert i < p;
      assert stack[..p][i] == x;
    }
    forall x | x in stack[..p] ensures x in stack && x !in comp {
      var i :| 0 <= i < p && stack[i] == x;
    }
  }

  /** Pops the node stack down to and including `v`. */
  method PopComponent(stack0: seq<Node>, onStack0: set<Node>, v: Node, indexOf: map<Node, nat>)
    returns (stack: seq<Node>, onStack: set<Node>, comp: seq<Node>)
    requires v in stack0
    requires forall x :: x in onStack0 <==> x in stack0
    requires Increasing(stack0, indexOf)
    ensures stack <= stack0
    ensures forall x :: x in comp <==> x in stack0 && indexOf[x] >= indexOf[v]
    ensures forall x :: x in onStack <==> x in onStack0 && x !in comp
    ensures forall x :: x in stack <==> x in onStack
    ensures Distinct(comp)
  {
    stack, onStack, comp := stack0, onStack0, [];
    ghost var p :| 0 <= p < |stack0| && stack0[p] == v;
    while true
      invariant p < |stack| && stack <= stack0
      invariant PoppedDownTo(stack0, |stack|, comp)
      invariant onStack == onStack0 - (set x | x in comp)
      decreases |stack|
    {
      var w := stack[|stack| - 1];
      stack := stack[..|stack| - 1];
      onStack := onStack - {w};
      comp := comp + [w];
      if w == v {
        assert |stack| == p;
        break;
      }
    }
    assert stack == stack0[..p];
    PoppedNodes(stack0, p, comp, indexOf, v);
  }

  /** The invariant of the search, with the facts about its input the code needs. */
  ghost predicate SearchInvariant(g: Graph, nodes: seq<Node>, s: State) {
    && Searching(g, s)
    && Reported(g, s)
    && Rooted(g, nodes, s.indexOf.Keys)
    && s.indexOf.Keys <= Universe(g, nodes)
    && (forall i :: 0 <= i < |s.sccs| ==> SortedBy(StringLe, s.sccs[i]) && Distinct(s.sccs[i]) && s.sccs[i] != [])
  }

  lemma VisitKeeps(g: Graph, nodes: seq<Node>, s: State, w: Node, children: seq<Node>, s': State)
    requires SearchInvariant(g, nodes, s)
    requires TarjanVisit.Visit(g, s, w, children, s')
    requires s.calls == [] ==> w in nodes
    ensures SearchInvariant(g, nodes, s')
  {
    hide Reaches, Universe, Rooted, Searching, EmittedClosed, EmittedMutual;
    TarjanVisit.VisitSearching(g, s, w, children, s');
    assert Rooted(g, nodes, s'.indexOf.Keys) && w in Universe(g, nodes) by {
      VisitRooted(g, nodes, s, w, children, s');
    }
    assert s'.indexOf.Keys == s.indexOf.Keys + {w};
  }

  /** The top frame, if there is one, has moved on to its next child. */
  function Moved(calls: seq<Frame>): seq<Frame> {
    if calls == [] then [] else
      var top := calls[|calls| - 1];
      calls[|calls| - 1 := top.(it := top.it + 1)]
  }

  lemma EnteringIsVisit(g: Graph, s: State, w: Node, children: seq<Node>, s': State)
    requires w !in s.indexOf && forall x :: x in children <==> Edge(g, w, x)
    requires s.calls != [] ==>
      var t := s.calls[|s.calls| - 1]; t.it < |t.children| && w == t.children[t.it] && s'.done == s.done + {(t.node, w)}
    requires s.calls == [] ==> s'.done == s.done
    requires s'.calls == Moved(s.calls) + [Frame(w, 0, children)]
    requires s'.indexOf == s.indexOf[w := s.idx] && s'.lowlink == s.lowlink[w := s.idx] && s'.idx == s.idx + 1
    requires s'.onStack == s.onStack + {w} && s'.stack == s.stack + [w] && s'.sccs == s.sccs
    ensures TarjanVisit.Visit(g, s, w, children, s')
  {
  }

  lemma VisitRooted(g: Graph, nodes: seq<Node>, s: State, w: Node, children: seq<Node>, s': State)
    requires Searching(g, s) && Rooted(g, nodes, s.indexOf.Keys)
    requires TarjanVisit.Visit(g, s, w, children, s')
    requires s.calls == [] ==> w in nodes
    ensures Rooted(g, nodes, s'.indexOf.Keys) && w in Universe(g, nodes)
  {
    hide Reaches, Processed, Grounded, Spanned, LowIsLow, LowIsReached;
    assert s'.indexOf.Keys == s.indexOf.Keys + {w};
    if s.calls == [] {
      ReachesSelf(g, w);
    } else {
      var t := s.calls[|s.calls| - 1];
      assert FrameOk(g, s, t);
      ChildIsEdge(g, s);
      RootedStep(g, nodes, s.indexOf.Keys, t.node, w);
    }
  }

  lemma LookKeeps(g: Graph, nodes: seq<Node>, s: State, s': State)
    requires SearchInvariant(g, nodes, s)
    requires TarjanLook.Look(s, s')
    ensures SearchInvariant(g, nodes, s')
  {
    hide Reaches, Universe, Rooted, Searching, EmittedClosed, EmittedMutual;
    TarjanLook.LookSearching(g, s, s');
  }

  lemma RetreatKeeps(g: Graph, nodes: seq<Node>, s: State, s': State)
    requires SearchInvariant(g, nodes, s)
    requires TarjanFinish.Retreat(s, s')
    ensures SearchInvariant(g, nodes, s')
    ensures |s.calls| > 1
  {
    hide Reaches, Universe, Rooted, Searching, EmittedClosed, EmittedMutual;
    TarjanFinish.RetreatSearching(g, s, s');
  }

  lemma ReportKeeps(g: Graph, nodes: seq<Node>, s: State, s': State, comp: seq<Node>)
    requires SearchInvariant(g, nodes, s)
    requires TarjanFinish.Report(s, s', comp)
    requires SortedBy(StringLe, comp) && Distinct(comp) && comp != []
    ensures SearchInvariant(g, nodes, s')
  {
    hide Reaches, Universe, Rooted, Searching, Reported;
    TarjanFinish.ReportSearching(g, s, s', comp);
    TarjanFinish.ReportReported(g, s, s', comp);
  }

  /** A component's root has a smaller index than its parent's low link allows, so the parent keeps its own. */
  lemma ReportLeavesParent(g: Graph, s: State)
    requires Searching(g, s) && |s.calls| > 1
    ensures s.lowlink[s.calls[|s.calls| - 2].node] < s.indexOf[s.calls[|s.calls| - 1].node]
  {
    hide Reaches, Edge, FrameOk, Processed, Grounded, Spanned, LowIsLow, LowReachedAt;
  }

  lemma RemainingDrops(calls: seq<Frame>)
    requires calls != [] && Within(calls)
    ensures Remaining(calls[..|calls| - 1]) < Remaining(calls)
    ensures var t := calls[|calls| - 1];
      t.it < |t.children| ==> Remaining(calls[|calls| - 1 := t.(it := t.it + 1)]) < Remaining(calls)
  {
    var t := calls[|calls| - 1];
    if t.it < |t.children| {
      var c := calls[|calls| - 1 := t.(it := t.it + 1)];
      assert c[..|c| - 1] == calls[..|calls| - 1];
    }
  }

  /** With no frame left, every visited node has been emitted. */
  lemma SettledWhenIdle(g: Graph, s: State)
    requires Searching(g, s) && Reported(g, s) && s.calls == []
    ensures s.onStack == {}
    ensures forall v :: v in s.indexOf <==> Emitted(s.sccs, v)
  {
    hide Reaches, Edge, FrameOk, Processed, Spanned, LowIsLow, LowIsReached, EmittedClosed, EmittedMutual;
    assert forall x :: x in s.onStack ==> GroundedAt(g, s, x);
  }

  lemma SearchStarts(g: Graph, nodes: seq<Node>)
    ensures SearchInvariant(g, nodes, State(map[], map[], {}, [], [], 0, [], {}))
  {
  }

  /** The local variables of one run of the search; `done` is what only the proof needs. */
  class Search {
    const adj: Graph
    ghost const nodes: seq<Node>
    var indexOf: map<Node, nat>
    var lowlink: map<Node, nat>
    var onStack: set<Node>
    var stack: seq<Node>
    var sccs: seq<seq<Node>>
    var idx: nat
    var calls: seq<Frame>
    ghost var done: set<(Node, Node)>

    ghost function Current(): State
      reads this
    {
      State(indexOf, lowlink, onStack, stack, sccs, idx, calls, done)
    }

    ghost predicate Valid()
      reads this
    {
      SearchInvariant(adj, nodes, Current())
    }

    constructor (adj: Graph, ghost nodes: seq<Node>)
      ensures Valid() && this.adj == adj && this.nodes == nodes
      ensures indexOf == map[] && calls == [] && sccs == []
    {
      this.adj, this.nodes := adj, nodes;
      indexOf, lowlink, onStack, stack, sccs, idx, calls, done := map[], map[], {}, [], [], 0, [], {};
      SearchStarts(adj, nodes);
    }

    /** Numbers `w`, pushes it on both stacks; with frames open, `w` is the top frame's next child. */
    method Enter(w: Node)
      requires Valid() && w !in indexOf
      requires if calls == [] then w in nodes else
        calls[|calls| - 1].it < |calls[|calls| - 1].children| && w == calls[|calls| - 1].children[calls[|calls| - 1].it]
      modifies this
      ensures Valid()
      ensures indexOf.Keys == old(indexOf.Keys) + {w}
    {
      hide SearchInvariant, SortedBy, Universe, StringLe, Distinct, Edge, TarjanVisit.Visit;
      ghost var s := Current();
      var children := KeysSorted(adj, w);
      if calls != [] {
        var top := calls[|calls| - 1];
        calls := calls[|calls| - 1 := top.(it := top.it + 1)];
        done := done + {(top.node, w)};
      }
      indexOf := indexOf[w := idx];
      lowlink := lowlink[w := idx];
      idx := idx + 1;
      stack := stack + [w];
      onStack := onStack + {w};
      calls := calls + [Frame(w, 0, children)];
      EnteringIsVisit(adj, s, w, children, Current());
      VisitKeeps(adj, nodes, s, w, children, Current());
    }

    /** Looks at the top frame's next child `w`, visited before. */
    method Look()
      requires calls != [] && calls[|calls| - 1].it < |calls[|calls| - 1].children|
      requires calls[|calls| - 1].children[calls[|calls| - 1].it] in indexOf
      requires Valid() && Usable(Universe(adj, nodes), Current())
      modifies this`lowlink, this`calls, this`done
      ensures Valid()
      ensures calls == Moved(old(calls))
    {
      hide SearchInvariant;
      ghost var s := Current();
      var top := calls[|calls| - 1];
      var w := top.children[top.it];
      calls := calls[|calls| - 1 := top.(it := top.it + 1)];
      done := done + {(top.node, w)};
      if w in onStack && indexOf[w] < lowlink[top.node] {
        lowlink := lowlink[top.node := indexOf[w]];
      }
      LookKeeps(adj, nodes, s, Current());
    }

    /** Finishes the top frame: reports its component if it is a root, and hands its low link to its parent. */
    method Finish()
      requires calls != [] && calls[|calls| - 1].it == |calls[|calls| - 1].children|
      requires Valid() && Usable(Universe(adj, nodes), Current())
      modifies this`lowlink, this`calls, this`onStack, this`stack, this`sccs
      ensures Valid()
      ensures calls == old(calls)[..|old(calls)| - 1]
    {
      hide SearchInvariant, Universe, SortedBy, Distinct, StringLe, Increasing;
      ghost var s := Current();
      var v := calls[|calls| - 1].node;
      var root := lowlink[v] == indexOf[v];
      ghost var comp: seq<Node> := [];
      if root {
        comp := ReportTop(v);
      }
      calls := calls[..|calls| - 1];
      if |calls| > 0 {
        var parent := calls[|calls| - 1].node;
        if lowlink[v] < lowlink[parent] {
          lowlink := lowlink[parent := lowlink[v]];
        }
      }
      if root {
        ReportKeeps(adj, nodes, s, Current(), comp);
      } else {
        RetreatKeeps(adj, nodes, s, Current());
      }
    }

    /** Pops the node stack down to `v` and appends what came off, sorted, as a component. */
    method ReportTop(v: Node) returns (comp: seq<Node>)
      requires v in stack
      requires forall x :: x in onStack <==> x in stack
      requires Increasing(stack, indexOf)
      modifies this`onStack, this`stack, this`sccs
      ensures forall x :: x in comp <==> x in old(stack) && indexOf[x] >= indexOf[v]
      ensures forall x :: x in onStack <==> x in old(onStack) && x !in comp
      ensures forall x :: x in stack <==> x in onStack
      ensures stack <= old(stack)
      ensures sccs == old(sccs) + [comp]
      ensures SortedBy(StringLe, comp) && Distinct(comp) && comp != []
    {
      var popped: seq<Node>;
      stack, onStack, popped := PopComponent(stack, onStack, v, indexOf);
      comp := SortStrings(popped);
      SameElements(popped, comp);
      DistinctPermutation(popped, comp);
      assert v in comp;
      sccs := sccs + [comp];
    }

    /** Runs the search from one root until its call stack is empty. */
    method From(n: Node)
      requires Valid() && calls == [] && n in nodes && n !in indexOf
      modifies this
      ensures Valid() && calls == []
      ensures n in indexOf && old(indexOf.Keys) <= indexOf.Keys
    {
      hide SearchInvariant, Remaining, Universe, Usable;
      Enter(n);
      RunningWithin(adj, nodes, Current());
      while |calls| > 0
        invariant Valid()
        invariant n in indexOf && old(indexOf.Keys) <= indexOf.Keys
        invariant Within(calls)
        decreases Universe(adj, nodes) - indexOf.Keys, Remaining(calls)
      {
        Running(adj, nodes, Current());
        RunningStep(Universe(adj, nodes), Current());
        RemainingDrops(calls);
        var top := calls[|calls| - 1];
        if top.it < |top.children| {
          if top.children[top.it] !in indexOf {
            Enter(top.children[top.it]);
          } else {
            Look();
          }
        } else {
          Finish();
        }
        RunningWithin(adj, nodes, Current());
      }
    }
  }

  method TarjanSCC(nodes: seq<Node>, adj: Graph) returns (sccs: seq<seq<Node>>)
    ensures Condensation(adj, nodes, sccs)
  {
    hide SearchInvariant, Condensation, SortedBy, StringLe;
    var search := new Search(adj, nodes);
    var sortedNodes := SortStrings(nodes);
    SameElements(nodes, sortedNodes);
    for t := 0 to |sortedNodes|
      invariant search.Valid() && search.calls == [] && search.adj == adj && search.nodes == nodes
      invariant forall i :: 0 <= i < t ==> sortedNodes[i] in search.indexOf
    {
      if sortedNodes[t] !in search.indexOf {
        search.From(sortedNodes[t]);
      }
    }
    Finished(adj, nodes, sortedNodes, search.Current());
    sccs := search.sccs;
  }

  /** What the code needs to know of a running state. */
  ghost predicate Usable(universe: set<Node>, s: State) {
    && s.calls != []
    && s.indexOf.Keys <= universe
    && s.lowlink.Keys == s.indexOf.Keys
    && (forall v :: v in s.onStack <==> v in s.stack)
    && (forall v :: v in s.onStack ==> v in s.indexOf)
    && Increasing(s.stack, s.indexOf)
    && (forall k :: 0 <= k < |s.calls| ==> s.calls[k].it <= |s.calls[k].children| && s.calls[k].node in s.onStack)
    && var t := s.calls[|s.calls| - 1];
    && (t.it < |t.children| ==> t.children[t.it] in universe)
    && (|s.calls| > 1 ==> s.lowlink[s.calls[|s.calls| - 2].node] < s.indexOf[t.node])
  }

  lemma Running(g: Graph, nodes: seq<Node>, s: State)
    requires SearchInvariant(g, nodes, s) && s.calls != []
    ensures Usable(Universe(g, nodes), s)
  {
    hide Reaches, Edge, Processed, Grounded, Spanned, LowIsLow, LowIsReached, Reported, Rooted, Indexed, Frames, Universe, Increasing;
    assert Indexed(s) && Frames(g, s);
    StackFacts(s);
    CallFacts(g, s);
    if |s.calls| > 1 { ReportLeavesParent(g, s); }
    var t := s.calls[|s.calls| - 1];
    if t.it < |t.children| {
      ChildIsEdge(g, s);
      EdgeInUniverse(g, nodes, t.node, t.children[t.it]);
    }
  }

  lemma RunningWithin(g: Graph, nodes: seq<Node>, s: State)
    requires SearchInvariant(g, nodes, s)
    ensures Within(s.calls)
  {
    hide Reaches, Edge, Processed, Grounded, Spanned, LowIsLow, LowIsReached, Reported, Rooted, Indexed, Frames, Universe;
    assert Indexed(s) && Frames(g, s);
    CallFacts(g, s);
  }

  lemma RunningStep(universe: set<Node>, s: State)
    requires Usable(universe, s)
    ensures var t := s.calls[|s.calls| - 1];
      && t.it <= |t.children|
      && (t.it < |t.children| ==> t.children[t.it] in universe)
  {
  }

  lemma EdgeInUniverse(g: Graph, nodes: seq<Node>, u: Node, v: Node)
    requires Edge(g, u, v)
    ensures v in Universe(g, nodes)
  {
  }

  /**
   The components are exactly the strongly connected components of the part of the
   graph the input reaches, each one sorted, and none before one it can reach.
   */
  ghost predicate Condensation(g: Graph, nodes: seq<Node>, sccs: seq<seq<Node>>) {
    && (forall i :: 0 <= i < |sccs| ==> sccs[i] != [] && SortedBy(StringLe, sccs[i]) && Distinct(sccs[i]))
    && (forall v :: Emitted(sccs, v) <==> exists n :: n in nodes && Reaches(g, n, v))
    && (forall i, j, v :: 0 <= i < |sccs| && 0 <= j < |sccs| && v in sccs[i] && v in sccs[j] ==> i == j)
    && (forall i, j, u, v :: 0 <= i < |sccs| && 0 <= j < |sccs| && u in sccs[i] && v in sccs[j] ==>
          (i == j <==> Reaches(g, u, v) && Reaches(g, v, u)))
    && (forall i, j, u, v :: 0 <= i < |sccs| && 0 <= j < |sccs| && u in sccs[i] && v in sccs[j] && Reaches(g, u, v) ==>
          j <= i)
  }

  /** What a component reaches was emitted no later. */
  lemma ReachedEmittedEarlier(g: Graph, sccs: seq<seq<Node>>, i: nat, u: Node, v: Node)
    requires EmittedClosed(g, sccs) && i < |sccs| && u in sccs[i] && Reaches(g, u, v)
    ensures exists j :: 0 <= j <= i && v in sccs[j]
  {
    hide Reaches;
    var upTo := set j, x | 0 <= j <= i && x in sccs[j] :: x;
    forall x, y | x in upTo && Edge(g, x, y) ensures y in upTo {
      var j :| 0 <= j <= i && x in sccs[j];
      var k :| 0 <= k <= j && y in sccs[k];
    }
    ClosedSetHoldsReachable(g, upTo, u, v);
  }

  lemma Finished(g: Graph, nodes: seq<Node>, sortedNodes: seq<Node>, s: State)
    requires SearchInvariant(g, nodes, s) && s.calls == []
    requires multiset(nodes) == multiset(sortedNodes)
    requires forall i :: 0 <= i < |sortedNodes| ==> sortedNodes[i] in s.indexOf
    ensures Condensation(g, nodes, s.sccs)
  {
    hide Reaches, Searching, EmittedClosed, Rooted, Accounted;
    SettledWhenIdle(g, s);
    SameElements(nodes, sortedNodes);
    var sccs := s.sccs;
    forall i, j, u, v | 0 <= i < |sccs| && 0 <= j < |sccs| && u in sccs[i] && v in sccs[j] && Reaches(g, u, v)
      ensures j <= i
    {
      ReachedEmittedEarlier(g, sccs, i, u, v);
      var k :| 0 <= k <= i && v in sccs[k];
      assert j == k;
    }
    forall v ensures Emitted(sccs, v) <==> exists n :: n in nodes && Reaches(g, n, v) {
      FinishedReach(g, nodes, s, v);
    }
  }

  lemma FinishedReach(g: Graph, nodes: seq<Node>, s: State, v: Node)
    requires EmittedClosed(g, s.sccs) && Rooted(g, nodes, s.indexOf.Keys)
    requires forall x :: x in s.indexOf <==> Emitted(s.sccs, x)
    requires forall x :: x in nodes ==> x in s.indexOf
    ensures Emitted(s.sccs, v) <==> exists n :: n in nodes && Reaches(g, n, v)
  {
    hide Reaches, EmittedClosed;
    if n :| n in nodes && Reaches(g, n, v) {
      var i :| 0 <= i < |s.sccs| && n in s.sccs[i];
      ReachedEmittedEarlier(g, s.sccs, i, n, v);
    }
  }

  // ----- the components are determined by the graph

  lemma CondensationCovers(g: Graph, nodes: seq<Node>, a: seq<seq<Node>>, b: seq<seq<Node>>, i: nat) returns (j: nat)
    requires Condensation(g, nodes, a) && Condensation(g, nodes, b) && i < |a|
    ensures j < |b|
    ensures forall x :: x in a[i] ==> x in b[j]
  {
    hide Reaches, SortedBy, Distinct;
    var u := a[i][0];
    assert Emitted(a, u);
    assert Emitted(b, u);
    j :| 0 <= j < |b| && u in b[j];
    forall x | x in a[i] ensures x in b[j] {
      assert Emitted(a, x);
      assert Emitted(b, x);
      var k :| 0 <= k < |b| && x in b[k];
      assert Reaches(g, u, x) && Reaches(g, x, u);
      assert j == k;
    }
  }

  /**
   Any two lists of the components of one graph hold the same components, entry by entry: what
   is reported depends on the graph alone, and only the order may differ between runs.
   */
  lemma CondensationsAgree(g: Graph, nodes: seq<Node>, a: seq<seq<Node>>, b: seq<seq<Node>>, i: nat) returns (j: nat)
    requires Condensation(g, nodes, a) && Condensation(g, nodes, b) && i < |a|
    ensures j < |b| && a[i] == b[j]
  {
    hide Reaches, SortedBy, Distinct, Emitted;
    j := CondensationCovers(g, nodes, a, b, i);
    var k := CondensationCovers(g, nodes, b, a, j);
    assert a[i][0] in a[i] && a[i][0] in a[k];
    assert k == i;
    StringLeIsTotalOrder();
    EnumerationsPermute(a[i], b[j]);
    SortedIsUnique(StringLe, a[i], b[j]);
  }
}
