/** Visiting a node for the first time keeps the search invariant. */
module TarjanVisit {
  import opened Graphs
  import opened TarjanState

  /** `s'` is `s` after `w` is numbered and pushed, as a new root or as the top frame's next child. */
  ghost predicate Visit(g: Graph, s: State, w: Node, children: seq<Node>, s': State) {
    var n := |s.calls|;
    && w !in s.indexOf
    && (forall x :: x in children <==> Edge(g, w, x))
    && s'.indexOf == s.indexOf[w := s.idx]
    && s'.lowlink == s.lowlink[w := s.idx]
    && s'.onStack == s.onStack + {w}
    && s'.stack == s.stack + [w]
    && s'.sccs == s.sccs
    && s'.idx == s.idx + 1
    && |s'.calls| == n + 1
    && s'.calls[n] == Frame(w, 0, children)
    && (forall k :: 0 <= k < n - 1 ==> s'.calls[k] == s.calls[k])
    && (n == 0 ==> s'.done == s.done)
    && (n > 0 ==>
          var t := s.calls[n - 1];
          && t.it < |t.children|
          && w == t.children[t.it]
          && s'.calls[n - 1] == t.(it := t.it + 1)
          && s'.done == s.done + {(t.node, w)})
  }

  lemma VisitIndexed(g: Graph, s: State, w: Node, children: seq<Node>, s': State)
    requires Visit(g, s, w, children, s')
    requires Indexed(s)
    ensures Indexed(s')
  {
  }

  lemma VisitGray(g: Graph, s: State, w: Node, children: seq<Node>, s': State)
    requires Visit(g, s, w, children, s')
    ensures forall k :: 0 <= k < |s.calls| ==> s'.calls[k].node == s.calls[k].node
    ensures forall v :: Gray(s'.calls, v) <==> v == w || Gray(s.calls, v)
  {
    var n := |s.calls|;
    assert forall k :: 0 <= k < n ==> s'.calls[k].node == s.calls[k].node;
    forall v ensures Gray(s'.calls, v) <==> v == w || Gray(s.calls, v) {
      if v == w { assert s'.calls[n].node == w; }
      if k :| 0 <= k < n && s.calls[k].node == v { assert s'.calls[k].node == v; }
      if k :| 0 <= k < |s'.calls| && s'.calls[k].node == v { assert k < n ==> s.calls[k].node == v; }
    }
  }

  lemma VisitFrames(g: Graph, s: State, w: Node, children: seq<Node>, s': State)
    requires Visit(g, s, w, children, s')
    requires Indexed(s) && Frames(g, s)
    requires Indexed(s')
    ensures Frames(g, s')
  {
    hide Reaches, Edge, Indexed;
    var n := |s.calls|;
    VisitGray(g, s, w, children, s');
    forall k | 0 <= k <= n ensures FrameOk(g, s', s'.calls[k]) {
      if k < n { assert FrameOk(g, s, s.calls[k]); }
    }
    VisitFramesOrdered(g, s, w, children, s');
    VisitFramesReach(g, s, w, children, s');
  }

  lemma VisitFramesOrdered(g: Graph, s: State, w: Node, children: seq<Node>, s': State)
    requires Visit(g, s, w, children, s')
    requires Indexed(s) && Frames(g, s)
    requires Indexed(s')
    requires forall k :: 0 <= k < |s'.calls| ==> s'.calls[k].node in s'.onStack
    ensures forall j, k :: 0 <= j < k < |s'.calls| ==> s'.indexOf[s'.calls[j].node] < s'.indexOf[s'.calls[k].node]
  {
    hide Reaches;
    var n := |s.calls|;
    forall j, k | 0 <= j < k <= n ensures s'.indexOf[s'.calls[j].node] < s'.indexOf[s'.calls[k].node] {
      assert FrameOk(g, s, s.calls[j]);
      if k < n { assert FrameOk(g, s, s.calls[k]); }
    }
  }

  lemma VisitFramesReach(g: Graph, s: State, w: Node, children: seq<Node>, s': State)
    requires Visit(g, s, w, children, s')
    requires Indexed(s) && Frames(g, s)
    ensures forall j, k :: 0 <= j <= k < |s'.calls| ==> Reaches(g, s'.calls[j].node, s'.calls[k].node)
  {
    hide Reaches;
    var n := |s.calls|;
    forall j, k | 0 <= j <= k <= n ensures Reaches(g, s'.calls[j].node, s'.calls[k].node) {
      if k == n {
        if j == n { ReachesSelf(g, w); }
        else {
          assert FrameOk(g, s, s.calls[n - 1]);
          ReachesEdge(g, s.calls[n - 1].node, w);
          ReachesTransitive(g, s.calls[j].node, s.calls[n - 1].node, w);
        }
      }
    }
  }

  lemma VisitProcessed(g: Graph, s: State, w: Node, children: seq<Node>, s': State)
    requires Visit(g, s, w, children, s')
    requires Indexed(s) && Processed(g, s)
    requires s.calls != [] ==> s.calls[|s.calls| - 1].node in s.onStack
    ensures Processed(g, s')
  {
    VisitGray(g, s, w, children, s');
  }

  lemma VisitGroundedAt(g: Graph, s: State, w: Node, children: seq<Node>, s': State, x: Node)
    requires Visit(g, s, w, children, s')
    requires Indexed(s) && Frames(g, s) && x in s.onStack && GroundedAt(g, s, x)
    requires Indexed(s') && Frames(g, s')
    ensures GroundedAt(g, s', x)
  {
    hide Reaches, Edge;
    var k :| 0 <= k < |s.calls| && s.indexOf[s.calls[k].node] <= s.indexOf[x] && Reaches(g, x, s.calls[k].node);
    VisitGray(g, s, w, children, s');
    assert FrameOk(g, s, s.calls[k]);
    assert s'.indexOf[s'.calls[k].node] <= s'.indexOf[x];
  }

  lemma VisitGrounded(g: Graph, s: State, w: Node, children: seq<Node>, s': State)
    requires Visit(g, s, w, children, s')
    requires Indexed(s) && Frames(g, s) && Grounded(g, s)
    requires Indexed(s') && Frames(g, s')
    ensures Grounded(g, s')
  {
    hide Reaches, Edge, GroundedAt;
    forall x | x in s'.onStack ensures GroundedAt(g, s', x) {
      if x == w {
        assert GroundedAt(g, s', x) by {
          var n := |s.calls|;
          assert s'.calls[n].node == w;
          ReachesSelf(g, w);
          GroundedBy(g, s', w, n);
        }
      } else {
        VisitGroundedAt(g, s, w, children, s', x);
      }
    }
  }

  lemma VisitSpannedAt(g: Graph, s: State, w: Node, children: seq<Node>, s': State, k: nat, x: Node)
    requires Visit(g, s, w, children, s')
    requires Indexed(s) && Frames(g, s) && Spanned(g, s)
    requires k < |s.calls| && s.calls[k].node in s.onStack && x in s.onStack
    requires s'.indexOf[s.calls[k].node] <= s'.indexOf[x]
    ensures Reaches(g, s.calls[k].node, x)
  {
    hide Reaches, Edge, FrameOk;
  }

  lemma VisitSpanned(g: Graph, s: State, w: Node, children: seq<Node>, s': State)
    requires Visit(g, s, w, children, s')
    requires Indexed(s) && Frames(g, s) && Spanned(g, s)
    requires Indexed(s') && Frames(g, s')
    ensures Spanned(g, s')
  {
    hide Reaches, Edge, FrameOk;
    var n := |s.calls|;
    VisitGray(g, s, w, children, s');
    forall k, x | 0 <= k < |s'.calls| && x in s'.onStack && s'.indexOf[s'.calls[k].node] <= s'.indexOf[x]
      ensures Reaches(g, s'.calls[k].node, x)
    {
      if x == w {
        assert s'.calls[n].node == w;
      } else {
        assert k < n;
        VisitSpannedAt(g, s, w, children, s', k, x);
      }
    }
  }

  lemma VisitLowIsLowAt(g: Graph, s: State, w: Node, children: seq<Node>, s': State, k: nat, x: Node, y: Node)
    requires Visit(g, s, w, children, s')
    requires Indexed(s) && Frames(g, s) && Processed(g, s) && LowIsLow(g, s)
    requires k < |s.calls| ==> s.calls[k].node in s.onStack && s.lowlink[s.calls[k].node] <= s.indexOf[s.calls[k].node]
    requires Indexed(s') && Frames(g, s')
    requires k < |s'.calls| && Owns(g, s', k, x) && (x, y) in s'.done && y in s'.onStack
    ensures s'.lowlink[s'.calls[k].node] <= s'.indexOf[y]
  {
    hide Reaches, Edge, FrameOk;
    var n := |s.calls|;
    if k == n {
      assert false;
    } else {
      VisitGray(g, s, w, children, s');
      if y != w {
        assert x != w;
        assert (x, y) in s.done;
        assert Owns(g, s, k, x);
      }
    }
  }

  lemma VisitLowIsLow(g: Graph, s: State, w: Node, children: seq<Node>, s': State)
    requires Visit(g, s, w, children, s')
    requires Indexed(s) && Frames(g, s) && Processed(g, s) && LowIsLow(g, s) && LowIsReached(g, s)
    requires Indexed(s') && Frames(g, s')
    ensures LowIsLow(g, s')
  {
    hide Reaches, Edge, LowReachedAt, Visit, Processed, Owns;
    forall k, x, y | 0 <= k < |s'.calls| && Owns(g, s', k, x) && (x, y) in s'.done && y in s'.onStack
      ensures s'.lowlink[s'.calls[k].node] <= s'.indexOf[y]
    {
      assert k < |s.calls| ==> FrameOk(g, s, s.calls[k]);
      VisitLowIsLowAt(g, s, w, children, s', k, x, y);
    }
  }

  lemma VisitLowReachedAt(g: Graph, s: State, w: Node, children: seq<Node>, s': State, k: nat)
    requires Visit(g, s, w, children, s')
    requires Indexed(s) && Frames(g, s) && k < |s.calls| && LowReachedAt(g, s, k)
    requires Indexed(s') && Frames(g, s')
    ensures LowReachedAt(g, s', k)
  {
    hide Reaches, Edge;
    VisitGray(g, s, w, children, s');
    assert FrameOk(g, s, s.calls[k]);
    var z :| z in s.onStack && s.indexOf[z] == s.lowlink[s.calls[k].node] && Reaches(g, s.calls[k].node, z);
    LowReachedBy(g, s', k, z);
  }

  lemma VisitLowIsReached(g: Graph, s: State, w: Node, children: seq<Node>, s': State)
    requires Visit(g, s, w, children, s')
    requires Indexed(s) && Frames(g, s) && LowIsReached(g, s)
    requires Indexed(s') && Frames(g, s')
    ensures LowIsReached(g, s')
  {
    hide Reaches, Edge, LowReachedAt;
    var n := |s.calls|;
    VisitGray(g, s, w, children, s');
    ReachesSelf(g, w);
    LowReachedBy(g, s', n, w);
    forall k | 0 <= k < n
      ensures s'.lowlink[s'.calls[k].node] <= s'.indexOf[s'.calls[k].node] && LowReachedAt(g, s', k)
    {
      assert FrameOk(g, s, s.calls[k]);
      VisitLowReachedAt(g, s, w, children, s', k);
    }
  }

  lemma VisitSearching(g: Graph, s: State, w: Node, children: seq<Node>, s': State)
    requires Visit(g, s, w, children, s')
    requires Searching(g, s)
    ensures Searching(g, s')
  {
    hide Reaches, Edge, Visit;
    VisitIndexed(g, s, w, children, s');
    VisitFrames(g, s, w, children, s');
    assert s.calls != [] ==> FrameOk(g, s, s.calls[|s.calls| - 1]);
    VisitProcessed(g, s, w, children, s');
    VisitGrounded(g, s, w, children, s');
    VisitSpanned(g, s, w, children, s');
    VisitLowIsLow(g, s, w, children, s');
    VisitLowIsReached(g, s, w, children, s');
  }
}
