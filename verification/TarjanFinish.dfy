/**
 Finishing the top frame keeps the search invariant: either its low link shows an
 older stacked node, and the frame's nodes pass to its parent, or it is the oldest
 node of a strongly connected component, which leaves the stack.
 */
module TarjanFinish {
  import opened Graphs
  import opened TarjanState

  ghost predicate TopDone(s: State) {
    && s.calls != []
    && var t := s.calls[|s.calls| - 1];
    && t.it == |t.children|
    && t.node in s.indexOf
    && t.node in s.lowlink
  }

  ghost function Top(s: State): Node
    requires s.calls != []
  {
    s.calls[|s.calls| - 1].node
  }

  /** `s'` is `s` after the finished top frame hands its low link to its parent. */
  ghost predicate Retreat(s: State, s': State) {
    && TopDone(s)
    && s.lowlink[Top(s)] != s.indexOf[Top(s)]
    && s'.indexOf == s.indexOf
    && s'.onStack == s.onStack
    && s'.stack == s.stack
    && s'.sccs == s.sccs
    && s'.idx == s.idx
    && s'.done == s.done
    && s'.calls == s.calls[..|s.calls| - 1]
    && (|s.calls| > 1 ==>
          var p := s.calls[|s.calls| - 2].node;
          && p in s.lowlink
          && s'.lowlink == if s.lowlink[Top(s)] < s.lowlink[p] then s.lowlink[p := s.lowlink[Top(s)]] else s.lowlink)
  }

  lemma PoppedGray(s: State, s': State)
    requires s.calls != [] && s'.calls == s.calls[..|s.calls| - 1]
    ensures forall v :: Gray(s'.calls, v) ==> Gray(s.calls, v)
    ensures forall v :: Gray(s.calls, v) ==> v == Top(s) || Gray(s'.calls, v)
  {
    forall v | Gray(s'.calls, v) ensures Gray(s.calls, v) {
      var k :| 0 <= k < |s'.calls| && s'.calls[k].node == v;
      assert s.calls[k].node == v;
    }
    forall v | Gray(s.calls, v) ensures v == Top(s) || Gray(s'.calls, v) {
      var k :| 0 <= k < |s.calls| && s.calls[k].node == v;
      if k < |s.calls| - 1 { assert s'.calls[k].node == v; }
    }
  }

  /** A frame whose low link is older is not the bottom frame. */
  lemma RetreatHasParent(g: Graph, s: State)
    requires TopDone(s) && s.lowlink[Top(s)] != s.indexOf[Top(s)]
    requires Indexed(s) && Frames(g, s) && Grounded(g, s) && LowIsReached(g, s)
    ensures |s.calls| > 1
  {
    var j := TopReachesOlder(g, s);
  }

  lemma RetreatFrames(g: Graph, s: State, s': State)
    requires Retreat(s, s') && |s.calls| > 1
    requires Indexed(s) && Frames(g, s)
    ensures Indexed(s') && Frames(g, s')
  {
    hide Reaches, Edge;
    forall k | 0 <= k < |s'.calls| ensures FrameOk(g, s', s'.calls[k]) {
      assert FrameOk(g, s, s.calls[k]);
    }
  }

  lemma FinishProcessed(g: Graph, s: State, s': State)
    requires TopDone(s) && FrameOk(g, s, s.calls[|s.calls| - 1])
    requires Processed(g, s)
    requires s'.calls == s.calls[..|s.calls| - 1] && s'.done == s.done && s'.onStack <= s.onStack && s'.indexOf == s.indexOf
    ensures Processed(g, s')
  {
    PoppedGray(s, s');
    forall x, w | x in s'.onStack && Edge(g, x, w) && !Gray(s'.calls, x) ensures (x, w) in s'.done {
      if x == Top(s) {
        TopEdgesDone(g, s, w);
      }
    }
  }

  lemma TopEdgesDone(g: Graph, s: State, w: Node)
    requires TopDone(s) && FrameOk(g, s, s.calls[|s.calls| - 1])
    requires Edge(g, Top(s), w)
    ensures (Top(s), w) in s.done
  {
    var t := s.calls[|s.calls| - 1];
    var i :| 0 <= i < |t.children| && t.children[i] == w;
  }

  /** Through its low link, the top frame reaches an older one. */
  lemma TopReachesOlder(g: Graph, s: State) returns (j: nat)
    requires TopDone(s) && s.lowlink[Top(s)] != s.indexOf[Top(s)]
    requires Indexed(s) && Frames(g, s) && Grounded(g, s) && LowIsReached(g, s)
    ensures j < |s.calls| - 1
    ensures s.indexOf[s.calls[j].node] <= s.indexOf[Top(s)] && Reaches(g, Top(s), s.calls[j].node)
  {
    hide Reaches, Edge, FrameOk, Grounded, LowIsReached;
    var n := |s.calls|;
    assert LowReachedAt(g, s, n - 1) && s.lowlink[Top(s)] <= s.indexOf[Top(s)] by { TopReached(g, s); }
    var z :| z in s.onStack && s.indexOf[z] == s.lowlink[Top(s)] && Reaches(g, Top(s), z);
    assert GroundedAt(g, s, z) by { TopGrounded(g, s, z); }
    j :| 0 <= j < n && s.indexOf[s.calls[j].node] <= s.indexOf[z] && Reaches(g, z, s.calls[j].node);
    assert s.indexOf[z] < s.indexOf[s.calls[n - 1].node];
    ReachesTransitive(g, Top(s), z, s.calls[j].node);
  }

  lemma RetreatGroundedAt(g: Graph, s: State, s': State, x: Node)
    requires Retreat(s, s') && |s.calls| > 1
    requires Indexed(s) && Frames(g, s) && x in s.onStack && Grounded(g, s) && LowIsReached(g, s)
    requires Indexed(s') && Frames(g, s')
    ensures GroundedAt(g, s', x)
  {
    hide Reaches, Edge, FrameOk, Grounded, LowIsReached;
    var n := |s.calls|;
    assert GroundedAt(g, s, x) by { TopGrounded(g, s, x); }
    var k :| 0 <= k < n && s.indexOf[s.calls[k].node] <= s.indexOf[x] && Reaches(g, x, s.calls[k].node);
    if k < n - 1 {
      GroundedBy(g, s', x, k);
    } else {
      var j := TopReachesOlder(g, s);
      ReachesTransitive(g, x, Top(s), s.calls[j].node);
      GroundedBy(g, s', x, j);
    }
  }

  lemma TopGrounded(g: Graph, s: State, x: Node)
    requires Indexed(s) && Frames(g, s) && Grounded(g, s) && x in s.onStack
    ensures GroundedAt(g, s, x)
  {
    hide Reaches, Edge, FrameOk, GroundedAt;
  }

  lemma TopReached(g: Graph, s: State)
    requires s.calls != [] && Indexed(s) && Frames(g, s) && LowIsReached(g, s)
    ensures LowReachedAt(g, s, |s.calls| - 1) && s.lowlink[Top(s)] <= s.indexOf[Top(s)]
  {
    hide Reaches, Edge, FrameOk, LowReachedAt;
  }

  lemma RetreatReach(g: Graph, s: State, s': State)
    requires Retreat(s, s') && |s.calls| > 1
    requires Indexed(s) && Frames(g, s) && Grounded(g, s) && Spanned(g, s) && LowIsReached(g, s)
    requires Indexed(s') && Frames(g, s')
    ensures Grounded(g, s') && Spanned(g, s')
  {
    hide Reaches, Edge, GroundedAt, FrameOk, LowReachedAt;
    forall x | x in s'.onStack ensures GroundedAt(g, s', x) { RetreatGroundedAt(g, s, s', x); }
  }

  lemma RetreatLowIsLowAt(g: Graph, s: State, s': State, k: nat, x: Node, y: Node)
    requires Retreat(s, s') && |s.calls| > 1
    requires Indexed(s) && Frames(g, s) && LowIsLow(g, s)
    requires Indexed(s') && Frames(g, s')
    requires k < |s'.calls| && Owns(g, s', k, x) && (x, y) in s'.done && y in s'.onStack
    ensures s'.lowlink[s'.calls[k].node] <= s'.indexOf[y]
  {
    hide Reaches, Edge, FrameOk;
    var n := |s.calls|;
    if k == n - 2 {
      assert Owns(g, s, n - 2, x) || Owns(g, s, n - 1, x);
    } else {
      assert Owns(g, s, k, x);
    }
  }

  lemma RetreatLowReachedAt(g: Graph, s: State, s': State, k: nat)
    requires Retreat(s, s') && |s.calls| > 1
    requires Indexed(s) && Frames(g, s) && LowIsReached(g, s)
    requires Indexed(s') && Frames(g, s')
    requires k < |s'.calls|
    ensures LowReachedAt(g, s', k)
  {
    hide Reaches, Edge, FrameOk;
    var n := |s.calls|;
    if s'.lowlink[s'.calls[k].node] == s.lowlink[s.calls[k].node] {
      assert LowReachedAt(g, s, k);
      var z :| z in s.onStack && s.indexOf[z] == s.lowlink[s.calls[k].node] && Reaches(g, s.calls[k].node, z);
      LowReachedBy(g, s', k, z);
    } else {
      var p := s.calls[n - 2].node;
      assert s.calls[k].node == p;
      assert LowReachedAt(g, s, n - 1);
      var z :| z in s.onStack && s.indexOf[z] == s.lowlink[Top(s)] && Reaches(g, Top(s), z);
      ReachesTransitive(g, p, Top(s), z);
      LowReachedBy(g, s', k, z);
    }
  }

  lemma RetreatLow(g: Graph, s: State, s': State)
    requires Retreat(s, s') && |s.calls| > 1
    requires Indexed(s) && Frames(g, s) && LowIsLow(g, s) && LowIsReached(g, s)
    requires Indexed(s') && Frames(g, s')
    ensures LowIsLow(g, s') && LowIsReached(g, s')
  {
    hide Reaches, Edge, LowReachedAt, FrameOk, Owns;
    forall k, x, y | 0 <= k < |s'.calls| && Owns(g, s', k, x) && (x, y) in s'.done && y in s'.onStack
      ensures s'.lowlink[s'.calls[k].node] <= s'.indexOf[y]
    {
      RetreatLowIsLowAt(g, s, s', k, x, y);
    }
    forall k | 0 <= k < |s'.calls|
      ensures s'.lowlink[s'.calls[k].node] <= s'.indexOf[s'.calls[k].node] && LowReachedAt(g, s', k)
    {
      RetreatLowReachedAt(g, s, s', k);
      assert s'.calls[k].node == s.calls[k].node;
    }
  }

  lemma RetreatSearching(g: Graph, s: State, s': State)
    requires Retreat(s, s')
    requires Searching(g, s)
    ensures Searching(g, s') && |s.calls| > 1
  {
    hide Reaches, Edge, LowReachedAt, GroundedAt, Owns, Gray;
    RetreatHasParent(g, s);
    RetreatFrames(g, s, s');
    assert FrameOk(g, s, s.calls[|s.calls| - 1]);
    FinishProcessed(g, s, s');
    RetreatReach(g, s, s');
    RetreatLow(g, s, s');
  }

  /** `s'` is `s` after the top frame, the oldest node of its component, is reported with all above it. */
  ghost predicate Report(s: State, s': State, comp: seq<Node>) {
    && TopDone(s)
    && s.lowlink[Top(s)] == s.indexOf[Top(s)]
    && (forall x :: x in comp <==> x in s.onStack && x in s.indexOf && s.indexOf[x] >= s.indexOf[Top(s)])
    && s'.indexOf == s.indexOf
    && (forall x :: x in s'.onStack <==> x in s.onStack && x !in comp)
    && s'.stack <= s.stack
    && (forall x :: x in s'.stack <==> x in s'.onStack)
    && s'.sccs == s.sccs + [comp]
    && s'.idx == s.idx
    && s'.done == s.done
    && s'.lowlink == s.lowlink
    && s'.calls == s.calls[..|s.calls| - 1]
  }

  lemma ReportFrames(g: Graph, s: State, s': State, comp: seq<Node>)
    requires Report(s, s', comp)
    requires Indexed(s) && Frames(g, s)
    ensures Indexed(s') && Frames(g, s')
  {
    hide Reaches, Edge;
    forall k | 0 <= k < |s'.calls| ensures FrameOk(g, s', s'.calls[k]) {
      assert FrameOk(g, s, s.calls[k]);
      assert s.indexOf[s.calls[k].node] < s.indexOf[Top(s)];
    }
  }

  lemma ReportGroundedAt(g: Graph, s: State, s': State, comp: seq<Node>, x: Node)
    requires Report(s, s', comp)
    requires Indexed(s) && Frames(g, s) && x in s'.onStack && GroundedAt(g, s, x)
    requires Indexed(s') && Frames(g, s')
    ensures GroundedAt(g, s', x)
  {
    hide Reaches, Edge, FrameOk;
    var k :| 0 <= k < |s.calls| && s.indexOf[s.calls[k].node] <= s.indexOf[x] && Reaches(g, x, s.calls[k].node);
    assert s.indexOf[x] < s.indexOf[Top(s)];
    GroundedBy(g, s', x, k);
  }

  lemma ReportReach(g: Graph, s: State, s': State, comp: seq<Node>)
    requires Report(s, s', comp)
    requires Indexed(s) && Frames(g, s) && Grounded(g, s) && Spanned(g, s)
    requires Indexed(s') && Frames(g, s')
    ensures Grounded(g, s') && Spanned(g, s')
  {
    hide Reaches, Edge, GroundedAt, FrameOk;
    forall x | x in s'.onStack ensures GroundedAt(g, s', x) { ReportGroundedAt(g, s, s', comp, x); }
  }

  lemma ReportOwns(g: Graph, s: State, s': State, comp: seq<Node>, k: nat, x: Node)
    requires Report(s, s', comp)
    requires Indexed(s) && Frames(g, s)
    requires Indexed(s') && Frames(g, s')
    requires k < |s'.calls| && Owns(g, s', k, x)
    ensures Owns(g, s, k, x)
  {
    hide Reaches, Edge, FrameOk;
    assert s.indexOf[x] < s.indexOf[Top(s)];
  }

  lemma ReportLowIsLow(g: Graph, s: State, s': State, comp: seq<Node>)
    requires Report(s, s', comp)
    requires Indexed(s) && Frames(g, s) && LowIsLow(g, s)
    requires Indexed(s') && Frames(g, s')
    ensures LowIsLow(g, s')
  {
    hide Reaches, Edge, FrameOk, Owns;
    forall k, x, y | 0 <= k < |s'.calls| && Owns(g, s', k, x) && (x, y) in s'.done && y in s'.onStack
      ensures s'.lowlink[s'.calls[k].node] <= s'.indexOf[y]
    {
      ReportOwns(g, s, s', comp, k, x);
    }
  }

  lemma ReportLowReachedAt(g: Graph, s: State, s': State, comp: seq<Node>, k: nat)
    requires Report(s, s', comp)
    requires Indexed(s) && Frames(g, s) && k < |s'.calls|
    requires s.lowlink[s.calls[k].node] <= s.indexOf[s.calls[k].node] && LowReachedAt(g, s, k)
    requires Indexed(s') && Frames(g, s')
    ensures LowReachedAt(g, s', k)
  {
    hide Reaches, Edge, FrameOk;
    var z :| z in s.onStack && s.indexOf[z] == s.lowlink[s.calls[k].node] && Reaches(g, s.calls[k].node, z);
    assert s.indexOf[s.calls[k].node] < s.indexOf[Top(s)];
    LowReachedBy(g, s', k, z);
  }

  lemma ReportLowIsReached(g: Graph, s: State, s': State, comp: seq<Node>)
    requires Report(s, s', comp)
    requires Indexed(s) && Frames(g, s) && LowIsReached(g, s)
    requires Indexed(s') && Frames(g, s')
    ensures LowIsReached(g, s')
  {
    hide Reaches, Edge, FrameOk, LowReachedAt;
    forall k | 0 <= k < |s'.calls|
      ensures s'.lowlink[s'.calls[k].node] <= s'.indexOf[s'.calls[k].node] && LowReachedAt(g, s', k)
    {
      assert s'.calls[k] == s.calls[k];
      ReportLowReachedAt(g, s, s', comp, k);
    }
  }

  lemma ReportSearching(g: Graph, s: State, s': State, comp: seq<Node>)
    requires Report(s, s', comp)
    requires Searching(g, s)
    ensures Searching(g, s')
  {
    hide Reaches, Edge, LowReachedAt, GroundedAt, Owns, Gray;
    ReportFrames(g, s, s', comp);
    assert FrameOk(g, s, s.calls[|s.calls| - 1]);
    FinishProcessed(g, s, s');
    ReportReach(g, s, s', comp);
    ReportLowIsLow(g, s, s', comp);
    ReportLowIsReached(g, s, s', comp);
  }

  /** Two nodes of the reported component reach each other. */
  lemma ReportMutual(g: Graph, s: State, s': State, comp: seq<Node>, u: Node, v: Node)
    requires Report(s, s', comp)
    requires Indexed(s) && Frames(g, s) && Grounded(g, s) && Spanned(g, s)
    requires u in comp && v in comp
    ensures Reaches(g, u, v)
  {
    hide Reaches, Edge, FrameOk, Grounded;
    var top := |s.calls| - 1;
    assert GroundedAt(g, s, u) by { TopGrounded(g, s, u); }
    var k :| 0 <= k < |s.calls| && s.indexOf[s.calls[k].node] <= s.indexOf[u] && Reaches(g, u, s.calls[k].node);
    ReachesTransitive(g, u, s.calls[k].node, Top(s));
    assert Reaches(g, s.calls[top].node, v);
    ReachesTransitive(g, u, Top(s), v);
  }

  /** An edge out of the reported component stays inside it or enters an earlier one. */
  lemma ReportEdge(g: Graph, s: State, s': State, comp: seq<Node>, u: Node, w: Node)
    requires Report(s, s', comp)
    requires Indexed(s) && Frames(g, s) && Processed(g, s) && LowIsLow(g, s) && Accounted(s)
    requires u in comp && Edge(g, u, w)
    ensures w in comp || Emitted(s.sccs, w)
  {
    hide Reaches;
    var top := |s.calls| - 1;
    assert FrameOk(g, s, s.calls[top]);
    assert (u, w) in s.done by {
      if u == Top(s) { TopEdgesDone(g, s, w); }
      else {
        assert !Gray(s.calls, u) by { OnlyTopAbove(g, s, u); }
      }
    }
    assert Owns(g, s, top, u);
  }

  lemma OnlyTopAbove(g: Graph, s: State, u: Node)
    requires Indexed(s) && Frames(g, s) && s.calls != []
    requires u in s.onStack && u != Top(s) && s.indexOf[u] >= s.indexOf[Top(s)]
    ensures !Gray(s.calls, u)
  {
    hide Reaches, Edge, FrameOk;
  }

  lemma ReportReported(g: Graph, s: State, s': State, comp: seq<Node>)
    requires Report(s, s', comp)
    requires Searching(g, s) && Reported(g, s)
    ensures Reported(g, s')
  {
    hide Reaches, Edge, FrameOk, Frames, Processed, Grounded, Spanned, LowIsLow, LowIsReached;
    var m := |s.sccs|;
    forall u, v | u in comp && v in comp ensures Reaches(g, u, v) { ReportMutual(g, s, s', comp, u, v); }
    forall u, w | u in comp && Edge(g, u, w) ensures exists j :: 0 <= j <= m && w in s'.sccs[j] {
      ReportEdge(g, s, s', comp, u, w);
      if w in comp { assert w in s'.sccs[m]; }
      else {
        var j :| 0 <= j < m && w in s.sccs[j];
        assert w in s'.sccs[j];
      }
    }
    ReportAccounted(s, s', comp);
    ReportClosed(g, s.sccs, comp);
    assert forall i :: 0 <= i < m ==> s'.sccs[i] == s.sccs[i];
  }

  lemma ReportAccounted(s: State, s': State, comp: seq<Node>)
    requires Report(s, s', comp)
    requires Accounted(s)
    ensures Accounted(s')
  {
    forall v | v in s'.indexOf && v !in s'.onStack ensures Emitted(s'.sccs, v) {
      if v in s.onStack { assert v in s'.sccs[|s.sccs|]; }
      else {
        var i :| 0 <= i < |s.sccs| && v in s.sccs[i];
        assert v in s'.sccs[i];
      }
    }
  }

  lemma ReportClosed(g: Graph, sccs: seq<seq<Node>>, comp: seq<Node>)
    requires EmittedClosed(g, sccs)
    requires forall u, w :: u in comp && Edge(g, u, w) ==> exists j :: 0 <= j <= |sccs| && w in (sccs + [comp])[j]
    ensures EmittedClosed(g, sccs + [comp])
  {
    var r := sccs + [comp];
    forall i, u, w | 0 <= i < |r| && u in r[i] && Edge(g, u, w) ensures exists j :: 0 <= j <= i && w in r[j] {
      if i < |sccs| {
        var j :| 0 <= j <= i && w in sccs[j];
        assert w in r[j];
      }
    }
  }
}
