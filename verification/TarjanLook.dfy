/** Looking at an edge to an already visited node keeps the search invariant. */
module TarjanLook {
  import opened Graphs
  import opened TarjanState

  /** `s'` is `s` after the top frame looks at its next child, which has been visited before. */
  ghost predicate Look(s: State, s': State) {
    var n := |s.calls|;
    && n > 0
    && s'.indexOf == s.indexOf
    && s'.onStack == s.onStack
    && s'.stack == s.stack
    && s'.sccs == s.sccs
    && s'.idx == s.idx
    && |s'.calls| == n
    && (forall k :: 0 <= k < n - 1 ==> s'.calls[k] == s.calls[k])
    && var t := s.calls[n - 1];
    && t.it < |t.children|
    && s'.calls[n - 1] == t.(it := t.it + 1)
    && var w := t.children[t.it];
    && w in s.indexOf
    && t.node in s.lowlink
    && s'.done == s.done + {(t.node, w)}
    && s'.lowlink ==
       if w in s.onStack && s.indexOf[w] < s.lowlink[t.node] then s.lowlink[t.node := s.indexOf[w]] else s.lowlink
  }

  lemma LookNodes(s: State, s': State)
    requires Look(s, s')
    ensures forall k :: 0 <= k < |s.calls| ==> s'.calls[k].node == s.calls[k].node
    ensures forall v :: Gray(s'.calls, v) <==> Gray(s.calls, v)
  {
    var n := |s.calls|;
    assert forall k :: 0 <= k < n ==> s'.calls[k].node == s.calls[k].node;
    forall v ensures Gray(s'.calls, v) <==> Gray(s.calls, v) {
      if k :| 0 <= k < n && s.calls[k].node == v { assert s'.calls[k].node == v; }
      if k :| 0 <= k < n && s'.calls[k].node == v { assert s.calls[k].node == v; }
    }
  }

  lemma LookFrames(g: Graph, s: State, s': State)
    requires Look(s, s')
    requires Indexed(s) && Frames(g, s)
    ensures Indexed(s') && Frames(g, s')
  {
    hide Reaches, Edge;
    LookNodes(s, s');
    forall k | 0 <= k < |s.calls| ensures FrameOk(g, s', s'.calls[k]) {
      assert FrameOk(g, s, s.calls[k]);
    }
  }

  lemma LookProcessed(g: Graph, s: State, s': State)
    requires Look(s, s')
    requires Indexed(s) && Processed(g, s)
    requires s.calls[|s.calls| - 1].node in s.onStack
    ensures Processed(g, s')
  {
    LookNodes(s, s');
  }

  lemma LookGroundedAt(g: Graph, s: State, s': State, x: Node)
    requires Look(s, s')
    requires Indexed(s) && Frames(g, s) && x in s.onStack && GroundedAt(g, s, x)
    requires Indexed(s') && Frames(g, s')
    ensures GroundedAt(g, s', x)
  {
    hide Reaches, Edge;
    LookNodes(s, s');
    var k :| 0 <= k < |s.calls| && s.indexOf[s.calls[k].node] <= s.indexOf[x] && Reaches(g, x, s.calls[k].node);
    GroundedBy(g, s', x, k);
  }

  lemma LookReach(g: Graph, s: State, s': State)
    requires Look(s, s')
    requires Indexed(s) && Frames(g, s) && Grounded(g, s) && Spanned(g, s)
    requires Indexed(s') && Frames(g, s')
    ensures Grounded(g, s') && Spanned(g, s')
  {
    hide Reaches, Edge, GroundedAt, FrameOk;
    LookNodes(s, s');
    forall x | x in s'.onStack ensures GroundedAt(g, s', x) { LookGroundedAt(g, s, s', x); }
  }

  lemma LookLowIsLowAt(g: Graph, s: State, s': State, k: nat, x: Node, y: Node)
    requires Look(s, s')
    requires Indexed(s) && Frames(g, s) && LowIsLow(g, s)
    requires Indexed(s') && Frames(g, s')
    requires k < |s'.calls| && Owns(g, s', k, x) && (x, y) in s'.done && y in s'.onStack
    ensures s'.lowlink[s'.calls[k].node] <= s'.indexOf[y]
  {
    hide Reaches, Edge, FrameOk;
    LookNodes(s, s');
    var n := |s.calls|;
    var t := s.calls[n - 1];
    assert Owns(g, s, k, x);
    if (x, y) !in s.done {
      assert x == t.node && y == t.children[t.it];
      assert k < n - 1 ==> k + 1 < n - 1 || k + 1 == n - 1;
      assert k == n - 1;
    }
  }

  lemma LookLowReachedAt(g: Graph, s: State, s': State, k: nat)
    requires Look(s, s')
    requires Indexed(s) && Frames(g, s) && k < |s.calls| && LowReachedAt(g, s, k)
    requires Indexed(s') && Frames(g, s')
    ensures LowReachedAt(g, s', k)
  {
    hide Reaches;
    LookNodes(s, s');
    var t := s.calls[|s.calls| - 1];
    var w := t.children[t.it];
    assert FrameOk(g, s, t);
    if s'.lowlink[s'.calls[k].node] == s.lowlink[s.calls[k].node] {
      var z :| z in s.onStack && s.indexOf[z] == s.lowlink[s.calls[k].node] && Reaches(g, s.calls[k].node, z);
      LowReachedBy(g, s', k, z);
    } else {
      assert s.calls[k].node == t.node;
      ReachesEdge(g, t.node, w);
      LowReachedBy(g, s', k, w);
    }
  }

  lemma LookLow(g: Graph, s: State, s': State)
    requires Look(s, s')
    requires Indexed(s) && Frames(g, s) && LowIsLow(g, s) && LowIsReached(g, s)
    requires Indexed(s') && Frames(g, s')
    ensures LowIsLow(g, s') && LowIsReached(g, s')
  {
    hide Reaches, Edge, LowReachedAt, FrameOk, Owns;
    forall k, x, y | 0 <= k < |s'.calls| && Owns(g, s', k, x) && (x, y) in s'.done && y in s'.onStack
      ensures s'.lowlink[s'.calls[k].node] <= s'.indexOf[y]
    {
      LookLowIsLowAt(g, s, s', k, x, y);
    }
    LookNodes(s, s');
    forall k | 0 <= k < |s'.calls|
      ensures s'.lowlink[s'.calls[k].node] <= s'.indexOf[s'.calls[k].node] && LowReachedAt(g, s', k)
    {
      LookLowReachedAt(g, s, s', k);
    }
  }

  lemma LookSearching(g: Graph, s: State, s': State)
    requires Look(s, s')
    requires Searching(g, s)
    ensures Searching(g, s')
  {
    hide Reaches, Edge, LowReachedAt, GroundedAt, Owns, Gray;
    LookFrames(g, s, s');
    assert FrameOk(g, s, s.calls[|s.calls| - 1]);
    LookProcessed(g, s, s');
    LookReach(g, s, s');
    LookLow(g, s, s');
  }
}
