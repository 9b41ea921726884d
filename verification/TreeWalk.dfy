/**
 Walking a syntax tree (`internal/store/edges.go`): the explicit-stack walk of the code,
 the recursive walk it stands for, and what a byte range leaves out.
 */
module TreeWalk {
  import opened Wrappers

  /** A syntax node; `content` is the text it spans, `functionField` the position of the child under the grammar field "function", if any. */
  datatype Tree = Tree(kind: string, startByte: nat, endByte: nat, content: string, children: seq<Tree>, functionField: Option<nat>)

  /** Whether the byte range excludes a node; the range (0, 0) excludes none. */
  predicate Outside(n: Tree, startByte: nat, endByte: nat) {
    (startByte != 0 || endByte != 0) && (n.endByte <= startByte || n.startByte >= endByte)
  }

  /** A visitor: what it makes of its state at a node, and whether to go below it. */
  type Visitor<!S> = (S, Tree) -> (S, bool)

  // ----- the recursive walk

  function Walk<S>(n: Tree, lo: nat, hi: nat, visit: Visitor<S>, s: S): S
    decreases n, 1
  {
    if Outside(n, lo, hi) then s
    else
      var (s', below) := visit(s, n);
      if below then WalkAll(n.children, lo, hi, visit, s') else s'
  }

  function WalkAll<S>(ts: seq<Tree>, lo: nat, hi: nat, visit: Visitor<S>, s: S): S
    decreases ts, 0
  {
    if ts == [] then s else WalkAll(ts[1..], lo, hi, visit, Walk(ts[0], lo, hi, visit, s))
  }

  // ----- the walk over an explicit stack

  datatype Frame = Frame(node: Tree, child: nat, seen: bool)

  ghost predicate StackOk(stack: seq<Frame>) {
    forall i :: 0 <= i < |stack| ==>
      stack[i].child <= |stack[i].node.children| && (!stack[i].seen ==> stack[i].child == 0)
  }

  /** What is left to do for the frames of a stack, top frame first. */
  ghost function Resume<S>(stack: seq<Frame>, lo: nat, hi: nat, visit: Visitor<S>, s: S): S
    requires StackOk(stack)
    decreases |stack|
  {
    if stack == [] then s
    else
      var f := stack[|stack| - 1];
      var s' := if f.seen then WalkAll(f.node.children[f.child..], lo, hi, visit, s) else Walk(f.node, lo, hi, visit, s);
      Resume(stack[..|stack| - 1], lo, hi, visit, s')
  }

  /** An upper bound on the loop's turns. */
  ghost function Weight(n: Tree): nat
    decreases n, 1
  {
    2 + WeightAll(n.children)
  }

  ghost function WeightAll(ts: seq<Tree>): nat
    decreases ts, 0
  {
    if ts == [] then 0 else Weight(ts[0]) + 1 + WeightAll(ts[1..])
  }

  ghost function StackWeight(stack: seq<Frame>): nat
    requires StackOk(stack)
  {
    if stack == [] then 0
    else
      var f := stack[|stack| - 1];
      StackWeight(stack[..|stack| - 1]) + if f.seen then 1 + WeightAll(f.node.children[f.child..]) else Weight(f.node)
  }

  /** Both measures of a stack depend on its top frame and on what is below it. */
  lemma TopFrame<S>(below: seq<Frame>, f: Frame, lo: nat, hi: nat, visit: Visitor<S>, s: S)
    requires StackOk(below) && f.child <= |f.node.children| && (!f.seen ==> f.child == 0)
    ensures StackOk(below + [f])
    ensures Resume(below + [f], lo, hi, visit, s) ==
      Resume(below, lo, hi, visit,
        if f.seen then WalkAll(f.node.children[f.child..], lo, hi, visit, s) else Walk(f.node, lo, hi, visit, s))
    ensures StackWeight(below + [f]) ==
      StackWeight(below) + if f.seen then 1 + WeightAll(f.node.children[f.child..]) else Weight(f.node)
  {
    assert (below + [f])[..|below + [f]| - 1] == below;
  }

  method WalkExpr<S>(n: Tree, lo: nat, hi: nat, visit: Visitor<S>, s0: S) returns (s: S)
    ensures s == Walk(n, lo, hi, visit, s0)
  {
    hide Resume, StackWeight, Walk, WalkAll, Weight, WeightAll;
    s := s0;
    var stack := [Frame(n, 0, false)];
    TopFrame([], Frame(n, 0, false), lo, hi, visit, s);
    EmptyStack(lo, hi, visit, Walk(n, lo, hi, visit, s));
    assert [] + stack == stack;
    while |stack| > 0
      invariant StackOk(stack)
      invariant Resume(stack, lo, hi, visit, s) == Walk(n, lo, hi, visit, s0)
      decreases StackWeight(stack)
    {
      var f := stack[|stack| - 1];
      var below := stack[..|stack| - 1];
      assert stack == below + [f];
      TopFrame(below, f, lo, hi, visit, s);
      if !f.seen {
        Unseen(f.node, lo, hi, visit, s);
        if Outside(f.node, lo, hi) {
          stack := below;
          continue;
        }
        f := f.(seen := true);
        var (s', go) := visit(s, f.node);
        s := s';
        if !go {
          stack := below;
          continue;
        }
        stack := below + [f];
        TopFrame(below, f, lo, hi, visit, s);
      }
      SeenStep(f.node.children, f.child, lo, hi, visit, s);
      if f.child < |f.node.children| {
        var child := f.node.children[f.child];
        f := f.(child := f.child + 1);
        TopFrame(below, f, lo, hi, visit, Walk(child, lo, hi, visit, s));
        TopFrame(below + [f], Frame(child, 0, false), lo, hi, visit, s);
        stack := below + [f] + [Frame(child, 0, false)];
      } else {
        stack := below;
      }
    }
    EmptyStack(lo, hi, visit, s);
  }

  lemma EmptyStack<S>(lo: nat, hi: nat, visit: Visitor<S>, s: S)
    ensures Resume([], lo, hi, visit, s) == s
    ensures StackWeight([]) == 0
  {
  }

  lemma Unseen<S>(n: Tree, lo: nat, hi: nat, visit: Visitor<S>, s: S)
    ensures Outside(n, lo, hi) ==> Walk(n, lo, hi, visit, s) == s
    ensures !Outside(n, lo, hi) && visit(s, n).1 ==>
      Walk(n, lo, hi, visit, s) == WalkAll(n.children[0..], lo, hi, visit, visit(s, n).0)
    ensures !Outside(n, lo, hi) && !visit(s, n).1 ==> Walk(n, lo, hi, visit, s) == visit(s, n).0
    ensures Weight(n) == 2 + WeightAll(n.children[0..])
  {
    assert n.children[0..] == n.children;
  }

  lemma SeenStep<S>(ts: seq<Tree>, i: nat, lo: nat, hi: nat, visit: Visitor<S>, s: S)
    requires i <= |ts|
    ensures i == |ts| ==> WalkAll(ts[i..], lo, hi, visit, s) == s && WeightAll(ts[i..]) == 0
    ensures i < |ts| ==>
      && WalkAll(ts[i..], lo, hi, visit, s) == WalkAll(ts[i + 1..], lo, hi, visit, Walk(ts[i], lo, hi, visit, s))
      && WeightAll(ts[i..]) == Weight(ts[i]) + 1 + WeightAll(ts[i + 1..])
  {
    if i < |ts| { assert ts[i..][1..] == ts[i + 1..]; }
  }

  // ----- which nodes a walk visits

  /** All nodes of a tree, each before its children. */
  function Preorder(n: Tree): seq<Tree>
    decreases n, 1
  {
    [n] + PreorderAll(n.children)
  }

  function PreorderAll(ts: seq<Tree>): seq<Tree>
    decreases ts, 0
  {
    if ts == [] then [] else Preorder(ts[0]) + PreorderAll(ts[1..])
  }

  /** The nodes a walk that never turns back visits, in order: nothing at or below an excluded node. */
  function Visited(n: Tree, lo: nat, hi: nat): seq<Tree>
    decreases n, 1
  {
    if Outside(n, lo, hi) then [] else [n] + VisitedAll(n.children, lo, hi)
  }

  function VisitedAll(ts: seq<Tree>, lo: nat, hi: nat): seq<Tree>
    decreases ts, 0
  {
    if ts == [] then [] else Visited(ts[0], lo, hi) + VisitedAll(ts[1..], lo, hi)
  }

  /** Every child's range lies within its parent's, all the way down. */
  predicate Nested(n: Tree)
    decreases n, 1
  {
    && (forall i :: 0 <= i < |n.children| ==> n.startByte <= n.children[i].startByte && n.children[i].endByte <= n.endByte)
    && NestedAll(n.children)
  }

  predicate NestedAll(ts: seq<Tree>)
    decreases ts, 0
  {
    ts == [] || (Nested(ts[0]) && NestedAll(ts[1..]))
  }

  /** The node's bytes meet the half-open range, or the range is the one that stands for everything. */
  predicate Overlaps(n: Tree, lo: nat, hi: nat) {
    (lo == 0 && hi == 0) || (lo < n.endByte && n.startByte < hi)
  }

  /** The overlapping nodes of a list, in order. */
  function Inside(ts: seq<Tree>, lo: nat, hi: nat): seq<Tree> {
    if ts == [] then [] else (if Overlaps(ts[0], lo, hi) then [ts[0]] else []) + Inside(ts[1..], lo, hi)
  }

  lemma {:induction false} InsideJoin(a: seq<Tree>, b: seq<Tree>, lo: nat, hi: nat)
    ensures Inside(a + b, lo, hi) == Inside(a, lo, hi) + Inside(b, lo, hi)
  {
    if a == [] { assert a + b == b; }
    else {
      assert (a + b)[1..] == a[1..] + b;
      InsideJoin(a[1..], b, lo, hi);
    }
  }

  /** Below an excluded node of a nested tree, every node is excluded. */
  lemma {:induction false} NothingInside(n: Tree, lo: nat, hi: nat)
    requires Nested(n) && Outside(n, lo, hi)
    ensures Inside(Preorder(n), lo, hi) == []
    decreases n, 1
  {
    InsideJoin([n], PreorderAll(n.children), lo, hi);
    NothingInsideAll(n.children, lo, hi);
  }

  lemma {:induction false} NothingInsideAll(ts: seq<Tree>, lo: nat, hi: nat)
    requires NestedAll(ts) && forall i :: 0 <= i < |ts| ==> Outside(ts[i], lo, hi)
    ensures Inside(PreorderAll(ts), lo, hi) == []
    decreases ts, 0
  {
    if ts != [] {
      NothingInside(ts[0], lo, hi);
      NothingInsideAll(ts[1..], lo, hi);
      InsideJoin(Preorder(ts[0]), PreorderAll(ts[1..]), lo, hi);
    }
  }

  /** In a nested tree, pruning by range loses nothing: exactly the nodes that overlap the range are visited. */
  lemma {:induction false} PruningLosesNothing(n: Tree, lo: nat, hi: nat)
    requires Nested(n)
    ensures Visited(n, lo, hi) == Inside(Preorder(n), lo, hi)
    decreases n, 1
  {
    if Outside(n, lo, hi) {
      NothingInside(n, lo, hi);
    } else {
      PruningLosesNothingAll(n.children, lo, hi);
      InsideJoin([n], PreorderAll(n.children), lo, hi);
    }
  }

  lemma {:induction false} PruningLosesNothingAll(ts: seq<Tree>, lo: nat, hi: nat)
    requires NestedAll(ts)
    ensures VisitedAll(ts, lo, hi) == Inside(PreorderAll(ts), lo, hi)
    decreases ts, 0
  {
    if ts != [] {
      PruningLosesNothing(ts[0], lo, hi);
      PruningLosesNothingAll(ts[1..], lo, hi);
      InsideJoin(Preorder(ts[0]), PreorderAll(ts[1..]), lo, hi);
    }
  }

  /** Applying a visitor to a list of nodes, ignoring what it says about going below. */
  function Fold<S>(visit: Visitor<S>, s: S, ts: seq<Tree>): S {
    if ts == [] then s else Fold(visit, visit(s, ts[0]).0, ts[1..])
  }

  lemma {:induction false} FoldJoin<S>(visit: Visitor<S>, s: S, a: seq<Tree>, b: seq<Tree>)
    ensures Fold(visit, s, a + b) == Fold(visit, Fold(visit, s, a), b)
  {
    if a == [] { assert a + b == b; }
    else {
      assert (a + b)[1..] == a[1..] + b;
      FoldJoin(visit, visit(s, a[0]).0, a[1..], b);
    }
  }

  /**
   A visitor that turns back only where nothing below could still change its state:
   once it has said so, it keeps that state at every node.
   */
  ghost predicate TurnsBackWhenDone<S(!new)>(visit: Visitor<S>) {
    forall s: S, n: Tree, m: Tree :: !visit(s, n).1 ==> visit(visit(s, n).0, m).0 == visit(s, n).0
  }

  lemma {:induction false} FoldUnchanged<S(!new)>(visit: Visitor<S>, s: S, n: Tree, ts: seq<Tree>)
    requires TurnsBackWhenDone(visit) && !visit(s, n).1
    ensures Fold(visit, visit(s, n).0, ts) == visit(s, n).0
  {
    if ts != [] { FoldUnchanged(visit, s, n, ts[1..]); }
  }

  /** For such a visitor a walk is the fold over the visited nodes, turned back or not. */
  lemma {:induction false} WalkIsFold<S(!new)>(n: Tree, lo: nat, hi: nat, visit: Visitor<S>, s: S)
    requires TurnsBackWhenDone(visit)
    ensures Walk(n, lo, hi, visit, s) == Fold(visit, s, Visited(n, lo, hi))
    decreases n, 1
  {
    if !Outside(n, lo, hi) {
      var (s', below) := visit(s, n);
      var rest := VisitedAll(n.children, lo, hi);
      assert ([n] + rest)[1..] == rest;
      if below {
        WalkAllIsFold(n.children, lo, hi, visit, s');
      } else {
        FoldUnchanged(visit, s, n, rest);
      }
    }
  }

  lemma {:induction false} WalkAllIsFold<S(!new)>(ts: seq<Tree>, lo: nat, hi: nat, visit: Visitor<S>, s: S)
    requires TurnsBackWhenDone(visit)
    ensures WalkAll(ts, lo, hi, visit, s) == Fold(visit, s, VisitedAll(ts, lo, hi))
    decreases ts, 0
  {
    if ts != [] {
      WalkIsFold(ts[0], lo, hi, visit, s);
      WalkAllIsFold(ts[1..], lo, hi, visit, Walk(ts[0], lo, hi, visit, s));
      FoldJoin(visit, s, Visited(ts[0], lo, hi), VisitedAll(ts[1..], lo, hi));
    }
  }

  /** Collecting nodes with a visitor that always goes below collects exactly the visited ones, in order. */
  lemma CollectingVisits(n: Tree, lo: nat, hi: nat)
    ensures Walk(n, lo, hi, (s: seq<Tree>, m: Tree) => (s + [m], true), []) == Visited(n, lo, hi)
  {
    var visit := (s: seq<Tree>, m: Tree) => (s + [m], true);
    WalkIsFold(n, lo, hi, visit, []);
    CollectingFold(visit, [], Visited(n, lo, hi));
  }

  lemma {:induction false} CollectingFold(visit: Visitor<seq<Tree>>, s: seq<Tree>, ts: seq<Tree>)
    requires forall r, m :: visit(r, m) == (r + [m], true)
    ensures Fold(visit, s, ts) == s + ts
    decreases |ts|
  {
    if ts != [] {
      CollectingFold(visit, s + [ts[0]], ts[1..]);
      assert s + ts == s + [ts[0]] + ts[1..];
    }
  }
}
