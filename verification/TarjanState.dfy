/**
 The state of the iterative strongly-connected-components search, and the invariant
 it keeps. `done` records the edges the search has already looked at; the code
 does not store it.
 */
module TarjanState {
  import opened Graphs

  datatype Frame = Frame(node: Node, it: nat, children: seq<Node>)

  datatype State = State(
    indexOf: map<Node, nat>,
    lowlink: map<Node, nat>,
    onStack: set<Node>,
    stack: seq<Node>,
    sccs: seq<seq<Node>>,
    idx: nat,
    calls: seq<Frame>,
    done: set<(Node, Node)>)

  ghost predicate Emitted(sccs: seq<seq<Node>>, v: Node) {
    exists i :: 0 <= i < |sccs| && v in sccs[i]
  }

  ghost predicate Gray(calls: seq<Frame>, v: Node) {
    exists k :: 0 <= k < |calls| && calls[k].node == v
  }

  /** Index numbers are issued in order, and the node stack holds increasing ones. */
  ghost predicate Indexed(s: State) {
    && s.lowlink.Keys == s.indexOf.Keys
    && s.onStack <= s.indexOf.Keys
    && (forall v :: v in s.indexOf ==> s.indexOf[v] < s.idx)
    && (forall i :: 0 <= i < |s.stack| ==> s.stack[i] in s.onStack)
    && (forall v :: v in s.onStack ==> v in s.stack)
    && (forall i, j :: 0 <= i < j < |s.stack| ==> s.indexOf[s.stack[i]] < s.indexOf[s.stack[j]])
  }

  /** A visited node is on the stack or in an emitted component, never both. */
  ghost predicate Accounted(s: State) {
    && (forall v :: v in s.indexOf && v !in s.onStack ==> Emitted(s.sccs, v))
    && (forall i, v :: 0 <= i < |s.sccs| && v in s.sccs[i] ==> v in s.indexOf && v !in s.onStack)
  }

  ghost predicate FrameOk(g: Graph, s: State, f: Frame) {
    && f.it <= |f.children|
    && (forall w :: w in f.children <==> Edge(g, f.node, w))
    && (forall i :: 0 <= i < f.it ==> (f.node, f.children[i]) in s.done)
  }

  ghost predicate Frames(g: Graph, s: State)
    requires Indexed(s)
  {
    && (forall k :: 0 <= k < |s.calls| ==> s.calls[k].node in s.onStack)
    && (forall k :: 0 <= k < |s.calls| ==> FrameOk(g, s, s.calls[k]))
    && (forall j, k :: 0 <= j < k < |s.calls| ==>
          s.indexOf[s.calls[j].node] < s.indexOf[s.calls[k].node])
    && (forall j, k :: 0 <= j <= k < |s.calls| ==> Reaches(g, s.calls[j].node, s.calls[k].node))
  }

  /** Every edge out of a finished node has been looked at, and looked-at edges join visited nodes. */
  ghost predicate Processed(g: Graph, s: State) {
    && (forall x, w :: x in s.onStack && Edge(g, x, w) && !Gray(s.calls, x) ==> (x, w) in s.done)
    && (forall x, w :: (x, w) in s.done ==> x in s.indexOf && w in s.indexOf)
  }

  /** `x` reaches an active node that is no younger. */
  ghost predicate GroundedAt(g: Graph, s: State, x: Node)
    requires Indexed(s) && Frames(g, s) && x in s.onStack
  {
    exists k :: 0 <= k < |s.calls| && s.indexOf[s.calls[k].node] <= s.indexOf[x] && Reaches(g, x, s.calls[k].node)
  }

  ghost predicate Grounded(g: Graph, s: State)
    requires Indexed(s) && Frames(g, s)
  {
    forall x :: x in s.onStack ==> GroundedAt(g, s, x)
  }

  /** Every active node reaches all stacked nodes that are no older. */
  ghost predicate Spanned(g: Graph, s: State)
    requires Indexed(s) && Frames(g, s)
  {
    forall k, x :: 0 <= k < |s.calls| && x in s.onStack && s.indexOf[s.calls[k].node] <= s.indexOf[x] ==>
      Reaches(g, s.calls[k].node, x)
  }

  /** `x` was first visited below frame `k` and below no later frame. */
  ghost predicate Owns(g: Graph, s: State, k: nat, x: Node)
    requires Indexed(s) && Frames(g, s) && k < |s.calls|
  {
    && x in s.onStack
    && s.indexOf[s.calls[k].node] <= s.indexOf[x]
    && (k + 1 < |s.calls| ==> s.indexOf[x] < s.indexOf[s.calls[k + 1].node])
  }

  /** The low link of a frame is at most the index of every stacked target of an edge it owns. */
  ghost predicate LowIsLow(g: Graph, s: State)
    requires Indexed(s) && Frames(g, s)
  {
    forall k, x, w :: 0 <= k < |s.calls| && Owns(g, s, k, x) && (x, w) in s.done && w in s.onStack ==>
      s.lowlink[s.calls[k].node] <= s.indexOf[w]
  }

  /** The low link of frame `k` is the index of a stacked node the frame reaches. */
  ghost predicate LowReachedAt(g: Graph, s: State, k: nat)
    requires Indexed(s) && Frames(g, s) && k < |s.calls|
  {
    exists z :: z in s.onStack && s.indexOf[z] == s.lowlink[s.calls[k].node] && Reaches(g, s.calls[k].node, z)
  }

  ghost predicate LowIsReached(g: Graph, s: State)
    requires Indexed(s) && Frames(g, s)
  {
    forall k :: 0 <= k < |s.calls| ==>
      && s.lowlink[s.calls[k].node] <= s.indexOf[s.calls[k].node]
      && LowReachedAt(g, s, k)
  }

  /** Edges out of emitted components lead to components emitted no later. */
  ghost predicate EmittedClosed(g: Graph, sccs: seq<seq<Node>>) {
    forall i, u, w :: 0 <= i < |sccs| && u in sccs[i] && Edge(g, u, w) ==>
      exists j :: 0 <= j <= i && w in sccs[j]
  }

  /** Emitted components are disjoint, and any two nodes of one reach each other. */
  ghost predicate EmittedMutual(g: Graph, sccs: seq<seq<Node>>) {
    && (forall i, u, v :: 0 <= i < |sccs| && u in sccs[i] && v in sccs[i] ==> Reaches(g, u, v))
    && (forall i, j, v :: 0 <= i < j < |sccs| && v in sccs[i] ==> v !in sccs[j])
  }

  /** The part of the invariant that relates the two stacks, the indices and the low links. */
  ghost predicate Searching(g: Graph, s: State) {
    && Indexed(s)
    && Frames(g, s)
    && Processed(g, s)
    && Grounded(g, s)
    && Spanned(g, s)
    && LowIsLow(g, s)
    && LowIsReached(g, s)
  }

  /** The part that speaks of the components already emitted. */
  ghost predicate Reported(g: Graph, s: State) {
    && Accounted(s)
    && EmittedClosed(g, s.sccs)
    && EmittedMutual(g, s.sccs)
  }

  lemma GroundedBy(g: Graph, s: State, x: Node, k: nat)
    requires Indexed(s) && Frames(g, s) && x in s.onStack && k < |s.calls|
    requires s.indexOf[s.calls[k].node] <= s.indexOf[x] && Reaches(g, x, s.calls[k].node)
    ensures GroundedAt(g, s, x)
  {
  }

  lemma LowReachedBy(g: Graph, s: State, k: nat, z: Node)
    requires Indexed(s) && Frames(g, s) && k < |s.calls|
    requires z in s.onStack && s.indexOf[z] == s.lowlink[s.calls[k].node] && Reaches(g, s.calls[k].node, z)
    ensures LowReachedAt(g, s, k)
  {
  }
}
