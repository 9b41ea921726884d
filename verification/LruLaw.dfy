/**
 What "least recently used" means over whole runs: when each key was last used, in which
 order the held keys stand, which key an insertion evicts, and which keys are held.
 */
module LruLaw {
  import opened Wrappers
  import opened Recency
  import opened LruInclusion

  /** Met with these entries, the operation uses `k`: it inserts `k`, or looks it up and finds it live. */
  ghost predicate IsUse<K(!new), V(!new)>(s: Recency<K, V>, op: Op<K, V>, k: K) {
    op.key == k && (op.Insert? || exists i :: 0 <= i < |s| && s[i].0 == k && op.live(s[i].1))
  }

  /** The operation finds its key dead. */
  ghost predicate IsDead<K(!new), V(!new)>(s: Recency<K, V>, op: Op<K, V>) {
    op.Lookup? && exists i :: 0 <= i < |s| && s[i].0 == op.key && !op.live(s[i].1)
  }

  /** The number of the operation that last used `k`, counted from one; zero if none did. */
  ghost function LastUse<K(!new), V(!new)>(ops: seq<Op<K, V>>, cap: nat, k: K): (n: nat)
    ensures n <= |ops|
  {
    if ops == [] then 0
    else
      var before := ops[..|ops| - 1];
      if IsUse(Run(before, cap), ops[|ops| - 1], k) then |ops| else LastUse(before, cap, k)
  }

  ghost function Uses<K(!new), V(!new)>(ops: seq<Op<K, V>>, cap: nat): K -> nat {
    (k: K) => LastUse(ops, cap, k)
  }

  ghost predicate NoDeadHits<K(!new), V(!new)>(ops: seq<Op<K, V>>, cap: nat) {
    forall n :: 0 <= n < |ops| ==> !IsDead(Run(ops[..n], cap), ops[n])
  }

  // ----- sequences in the order of a rank

  ghost predicate Ordered<K(!new), V(!new)>(s: Recency<K, V>, rank: K -> nat) {
    && (forall i :: 0 <= i < |s| ==> rank(s[i].0) > 0)
    && (forall i, j :: 0 <= i < j < |s| ==> rank(s[i].0) > rank(s[j].0))
  }

  lemma OrderedCons<K(!new), V(!new)>(p: (K, V), s: Recency<K, V>, rank: K -> nat)
    requires Ordered(s, rank) && rank(p.0) > 0
    requires forall i :: 0 <= i < |s| ==> rank(p.0) > rank(s[i].0)
    ensures Ordered([p] + s, rank)
  {
    var t := [p] + s;
    assert forall i :: 0 < i < |t| ==> t[i] == s[i - 1];
  }

  lemma OrderedJoin<K(!new), V(!new)>(s: Recency<K, V>, n: nat, rank: K -> nat)
    requires Ordered(s, rank) && n < |s|
    ensures Ordered(s[..n] + s[n + 1..], rank)
  {
    var t := s[..n] + s[n + 1..];
    assert forall j :: 0 <= j < |t| ==> t[j] == if j < n then s[j] else s[j + 1];
  }

  lemma OrderedWithout<K(!new), V(!new)>(s: Recency<K, V>, k: K, rank: K -> nat)
    requires DistinctKeys(s) && Ordered(s, rank)
    ensures Ordered(Without(s, k), rank)
  {
    if k in Keys(s) {
      var i :| 0 <= i < |s| && s[i].0 == k;
      WithoutAt(s, i);
      OrderedJoin(s, i, rank);
    } else {
      WithoutKeys(s, k);
    }
  }

  lemma OrderedInit<K(!new), V(!new)>(s: Recency<K, V>, rank: K -> nat)
    requires Ordered(s, rank) && s != []
    ensures Ordered(s[..|s| - 1], rank)
  {
  }

  /** Another rank that agrees on the keys held gives the same order. */
  lemma OrderedAgain<K(!new), V(!new)>(s: Recency<K, V>, rank: K -> nat, rank': K -> nat)
    requires Ordered(s, rank)
    requires forall i :: 0 <= i < |s| ==> rank(s[i].0) == rank'(s[i].0)
    ensures Ordered(s, rank')
  {
  }

  // ----- one operation

  /** An operation renews the rank of the key it uses, and no other. */
  lemma UsesAfter<K(!new), V(!new)>(ops: seq<Op<K, V>>, op: Op<K, V>, cap: nat, k: K)
    ensures Run(ops + [op], cap) == Do(Run(ops, cap), op, cap)
    ensures Uses(ops + [op], cap)(k) == if IsUse(Run(ops, cap), op, k) then |ops| + 1 else Uses(ops, cap)(k)
  {
    assert (ops + [op])[..|ops|] == ops;
  }

  lemma FindIsEntry<K, V>(s: Recency<K, V>, i: nat)
    requires DistinctKeys(s) && i < |s|
    ensures Find(s, s[i].0) == Some(s[i].1)
    ensures forall j :: 0 <= j < |s| && s[j].0 == s[i].0 ==> j == i
  {
    WithoutAt(s, i);
  }

  /** Putting a used key in front keeps the order by last use. */
  lemma FrontedOrdered<K(!new), V(!new)>(ops: seq<Op<K, V>>, op: Op<K, V>, cap: nat, v: V)
    requires DistinctKeys(Run(ops, cap)) && Ordered(Run(ops, cap), Uses(ops, cap))
    requires IsUse(Run(ops, cap), op, op.key)
    ensures Ordered([(op.key, v)] + Without(Run(ops, cap), op.key), Uses(ops + [op], cap))
  {
    var s, k := Run(ops, cap), op.key;
    var rest, rank, rank' := Without(s, k), Uses(ops, cap), Uses(ops + [op], cap);
    OrderedWithout(s, k, rank);
    forall i | 0 <= i < |rest| ensures rank(rest[i].0) == rank'(rest[i].0) < |ops| + 1 {
      WithoutKeepsEntries(s, k, rest[i]);
      UsesAfter(ops, op, cap, rest[i].0);
    }
    OrderedAgain(rest, rank, rank');
    UsesAfter(ops, op, cap, k);
    OrderedCons((k, v), rest, rank');
  }

  lemma NoUseOrdered<K(!new), V(!new)>(ops: seq<Op<K, V>>, op: Op<K, V>, cap: nat, s: Recency<K, V>)
    requires Ordered(s, Uses(ops, cap)) && !IsUse(Run(ops, cap), op, op.key)
    ensures Ordered(s, Uses(ops + [op], cap))
  {
    forall i | 0 <= i < |s| ensures Uses(ops, cap)(s[i].0) == Uses(ops + [op], cap)(s[i].0) {
      UsesAfter(ops, op, cap, s[i].0);
    }
    OrderedAgain(s, Uses(ops, cap), Uses(ops + [op], cap));
  }

  lemma StepOrdered<K(!new), V(!new)>(ops: seq<Op<K, V>>, op: Op<K, V>, cap: nat)
    requires cap > 0 && WithinCap(Run(ops, cap), cap) && Ordered(Run(ops, cap), Uses(ops, cap))
    ensures Ordered(Run(ops + [op], cap), Uses(ops + [op], cap))
  {
    hide Uses, Ordered, Run, Without;
    var s, k := Run(ops, cap), op.key;
    UsesAfter(ops, op, cap, k);
    match op
    case Insert(_, v) =>
      FrontedOrdered(ops, op, cap, v);
      OrderedInit([(k, v)] + Without(s, k), Uses(ops + [op], cap));
    case Lookup(_, live) =>
      LookupUses(s, op);
      if k in Keys(s) && live(Find(s, k).value) {
        FrontedOrdered(ops, op, cap, Find(s, k).value);
      } else {
        OrderedWithout(s, k, Uses(ops, cap));
        NoUseOrdered(ops, op, cap, AfterLookup(s, k, live));
      }
  }

  lemma LookupUses<K(!new), V(!new)>(s: Recency<K, V>, op: Op<K, V>)
    requires DistinctKeys(s) && op.Lookup?
    ensures IsUse(s, op, op.key) <==> op.key in Keys(s) && op.live(Find(s, op.key).value)
    ensures IsDead(s, op) <==> op.key in Keys(s) && !op.live(Find(s, op.key).value)
  {
    if i :| 0 <= i < |s| && s[i].0 == op.key { FindIsEntry(s, i); }
  }

  lemma {:induction false} RunWithinCap<K(!new), V(!new)>(ops: seq<Op<K, V>>, cap: nat)
    requires cap > 0
    ensures WithinCap(Run(ops, cap), cap)
  {
    if ops != [] {
      var before, op := ops[..|ops| - 1], ops[|ops| - 1];
      RunWithinCap(before, cap);
      match op
      case Lookup(k, live) => LookupWithinCap(Run(before, cap), k, live, cap);
      case Insert(k, v) => InsertWithinCap(Run(before, cap), k, v, cap);
    }
  }

  lemma {:induction false} RunOrdered<K(!new), V(!new)>(ops: seq<Op<K, V>>, cap: nat)
    requires cap > 0
    ensures Ordered(Run(ops, cap), Uses(ops, cap))
  {
    if ops != [] {
      var before, op := ops[..|ops| - 1], ops[|ops| - 1];
      RunOrdered(before, cap);
      RunWithinCap(before, cap);
      StepOrdered(before, op, cap);
      assert ops == before + [op];
    }
  }

  // ----- the law

  /** After any run the held keys stand in the order of their last uses, most recent first. */
  lemma HeldInOrderOfUse<K(!new), V(!new)>(ops: seq<Op<K, V>>, cap: nat, i: nat, j: nat)
    requires cap > 0 && i < j < |Run(ops, cap)|
    ensures LastUse(ops, cap, Run(ops, cap)[i].0) > LastUse(ops, cap, Run(ops, cap)[j].0) > 0
  {
    RunOrdered(ops, cap);
    var rank := Uses(ops, cap);
    assert rank(Run(ops, cap)[i].0) > rank(Run(ops, cap)[j].0) > 0;
  }

  /**
   What one more operation does to the keys held. A lookup drops its key if dead and no other. An
   insertion adds its key, and if that is new and the cache is full, it evicts one key: the one
   whose last use is oldest.
   */
  lemma EvictsTheOldest<K(!new), V(!new)>(ops: seq<Op<K, V>>, op: Op<K, V>, cap: nat)
    requires cap > 0
    ensures var s, s' := Run(ops, cap), Run(ops + [op], cap);
      && |s| == |Keys(s)| <= cap
      && (op.Lookup? ==> Keys(s') == if IsDead(s, op) then Keys(s) - {op.key} else Keys(s))
      && (op.Insert? && (op.key in Keys(s) || |s| < cap) ==> Keys(s') == Keys(s) + {op.key})
      && (op.Insert? && op.key !in Keys(s) && |s| == cap ==>
            exists e :: e in Keys(s) && Keys(s') == Keys(s) + {op.key} - {e} &&
              forall x :: x in Keys(s) && x != e ==> LastUse(ops, cap, x) > LastUse(ops, cap, e))
  {
    var s, k := Run(ops, cap), op.key;
    RunWithinCap(ops, cap);
    RunOrdered(ops, cap);
    UsesAfter(ops, op, cap, k);
    KeysSize(s);
    WithoutKeys(s, k);
    match op
    case Lookup(_, live) =>
      LookupUses(s, op);
      if k in Keys(s) { KeysCons((k, Find(s, k).value), Without(s, k)); }
    case Insert(_, v) =>
      KeysCons((k, v), Without(s, k));
      if k !in Keys(s) && |s| == cap { OldestDropped(s, (k, v), Uses(ops, cap)); }
      if k in Keys(s) || |s| < cap { WithoutDistinct(s, k); }
  }

  lemma {:induction false} KeysSize<K, V>(s: Recency<K, V>)
    requires DistinctKeys(s)
    ensures |Keys(s)| == |s|
  {
    if s != [] {
      DistinctTail(s);
      KeysSize(s[1..]);
      assert s == [s[0]] + s[1..];
      KeysCons(s[0], s[1..]);
    } else {
      assert Keys(s) == {};
    }
  }

  lemma OldestDropped<K(!new), V(!new)>(s: Recency<K, V>, p: (K, V), rank: K -> nat)
    requires DistinctKeys(s) && s != [] && p.0 !in Keys(s) && Ordered(s, rank)
    ensures var e := s[|s| - 1].0; var t := [p] + s;
      && e in Keys(s) && Keys(t[..|t| - 1]) == Keys(s) + {p.0} - {e}
      && forall x :: x in Keys(s) && x != e ==> rank(x) > rank(e)
  {
    var n := |s| - 1;
    var t := [p] + s;
    WithoutAt(s, n);
    WithoutKeys(s, s[n].0);
    assert s[..n] + s[n + 1..] == s[..n];
    assert t[..|t| - 1] == [p] + s[..n];
    KeysCons(p, s[..n]);
  }

  /** A key found has the value of its last insertion. */
  lemma {:induction false} ValueIsLastInserted<K(!new), V(!new)>(ops: seq<Op<K, V>>, cap: nat, k: K) returns (n: nat)
    requires cap > 0 && Find(Run(ops, cap), k).Some?
    ensures n < |ops| && ops[n] == Insert(k, Find(Run(ops, cap), k).value)
    ensures forall m :: n < m < |ops| ==> !(ops[m].Insert? && ops[m].key == k)
  {
    hide AfterInsert, AfterLookup, Find;
    var before, op := ops[..|ops| - 1], ops[|ops| - 1];
    RunWithinCap(before, cap);
    FindAfter(Run(before, cap), op, cap, k);
    if op.Insert? && op.key == k {
      n := |ops| - 1;
    } else {
      n := ValueIsLastInserted(before, cap, k);
    }
  }

  lemma FindAfter<K(!new), V(!new)>(s: Recency<K, V>, op: Op<K, V>, cap: nat, k: K)
    requires WithinCap(s, cap) && cap > 0 && Find(Do(s, op, cap), k).Some?
    ensures Find(Do(s, op, cap), k) == if op.Insert? && op.key == k then Some(op.value) else Find(s, k)
  {
    hide AfterInsert, AfterLookup, Find;
    match op
    case Insert(x, v) => InsertedIsFound(s, x, v, cap, k);
    case Lookup(x, live) => LookupFinds(s, x, live, k);
  }

  lemma LookupFinds<K(!new), V(!new)>(s: Recency<K, V>, k: K, live: V -> bool, x: K)
    requires DistinctKeys(s)
    ensures Find(AfterLookup(s, k, live), x).Some? ==> Find(AfterLookup(s, k, live), x) == Find(s, x)
  {
    var r := AfterLookup(s, k, live);
    if Find(r, x).Some? {
      var p := (x, Find(r, x).value);
      assert p in r;
      WithoutKeepsEntries(s, k, p);
      assert p in s;
      var i :| 0 <= i < |s| && s[i] == p;
      WithoutAt(s, i);
    }
  }

  // ----- which keys are held

  /** The keys whose last use is the `n`-th operation or a later one. */
  ghost function UsedSince<K(!new), V(!new)>(ops: seq<Op<K, V>>, cap: nat, n: nat): set<K> {
    set i | 0 <= i < |ops| && LastUse(ops, cap, ops[i].key) >= n :: ops[i].key
  }

  /** What is not held was used before everything that is, and the cache is full. */
  ghost predicate OthersAreOlder<K(!new), V(!new)>(ops: seq<Op<K, V>>, cap: nat) {
    var s := Run(ops, cap);
    forall x :: LastUse(ops, cap, x) > 0 && x !in Keys(s) ==>
      |s| == cap && forall y :: y in Keys(s) ==> LastUse(ops, cap, y) > LastUse(ops, cap, x)
  }

  lemma StepKeepsOlder<K(!new), V(!new)>(ops: seq<Op<K, V>>, op: Op<K, V>, cap: nat)
    requires cap > 0 && OthersAreOlder(ops, cap) && !IsDead(Run(ops, cap), op)
    ensures OthersAreOlder(ops + [op], cap)
  {
    hide Run, LastUse, IsDead, Keys;
    var s, s', all := Run(ops, cap), Run(ops + [op], cap), ops + [op];
    EvictsTheOldest(ops, op, cap);
    RunWithinCap(all, cap);
    KeysSize(s');
    RunWithinCap(ops, cap);
    LookupUsesKey(s, op);
    forall x ensures LastUse(all, cap, x) == if IsUse(s, op, x) then |ops| + 1 else LastUse(ops, cap, x) {
      UsesAfter(ops, op, cap, x);
    }
    forall x | LastUse(all, cap, x) > 0 && x !in Keys(s')
      ensures |s'| == cap && forall y :: y in Keys(s') ==> LastUse(all, cap, y) > LastUse(all, cap, x)
    {
      assert !IsUse(s, op, x) && LastUse(all, cap, x) == LastUse(ops, cap, x) <= |ops|;
      if op.Insert? && op.key !in Keys(s) && |s| == cap {
        var e :| e in Keys(s) && Keys(s') == Keys(s) + {op.key} - {e} &&
          forall z :: z in Keys(s) && z != e ==> LastUse(ops, cap, z) > LastUse(ops, cap, e);
        assert |Keys(s) + {op.key} - {e}| == cap;
      } else {
        assert x !in Keys(s) && |s| == cap;
        assert Keys(s') == Keys(s);
      }
    }
  }

  lemma LookupUsesKey<K(!new), V(!new)>(s: Recency<K, V>, op: Op<K, V>)
    requires DistinctKeys(s)
    ensures op.Lookup? && IsUse(s, op, op.key) ==> op.key in Keys(s)
    ensures forall x :: IsUse(s, op, x) ==> x == op.key
    ensures op.Insert? ==> IsUse(s, op, op.key)
  {
  }

  lemma {:induction false} RunKeepsOlder<K(!new), V(!new)>(ops: seq<Op<K, V>>, cap: nat)
    requires cap > 0 && NoDeadHits(ops, cap)
    ensures OthersAreOlder(ops, cap)
  {
    if ops != [] {
      var before, op := ops[..|ops| - 1], ops[|ops| - 1];
      forall n | 0 <= n < |before| ensures !IsDead(Run(before[..n], cap), before[n]) {
        assert before[..n] == ops[..n] && before[n] == ops[n];
      }
      RunKeepsOlder(before, cap);
      assert !IsDead(Run(ops[..|ops| - 1], cap), ops[|ops| - 1]);
      StepKeepsOlder(before, op, cap);
      assert ops == before + [op];
    }
  }

  lemma {:induction false} UsedIsOperated<K(!new), V(!new)>(ops: seq<Op<K, V>>, cap: nat, k: K)
    requires LastUse(ops, cap, k) > 0
    ensures exists i :: 0 <= i < |ops| && ops[i].key == k
  {
    var n := |ops| - 1;
    if !IsUse(Run(ops[..n], cap), ops[n], k) { UsedIsOperated(ops[..n], cap, k); }
  }

  lemma SubsetSize<K>(a: set<K>, b: set<K>)
    requires a <= b
    ensures |a| <= |b|
  {
    assert b == a + (b - a);
  }

  /**
   The law of LRU: after any run without dead hits the keys held are the `cap` keys used last, a
   use being an insertion or a hit.
   */
  lemma HeldAreTheLastUsed<K(!new), V(!new)>(ops: seq<Op<K, V>>, cap: nat, k: K)
    requires cap > 0 && NoDeadHits(ops, cap)
    ensures Find(Run(ops, cap), k).Some? <==>
      LastUse(ops, cap, k) > 0 && |UsedSince(ops, cap, LastUse(ops, cap, k))| <= cap
  {
    hide Run, LastUse, NoDeadHits, Find;
    var s, n := Run(ops, cap), LastUse(ops, cap, k);
    RunWithinCap(ops, cap);
    RunOrdered(ops, cap);
    RunKeepsOlder(ops, cap);
    KeysSize(s);
    assert forall x :: x in Keys(s) ==> LastUse(ops, cap, x) > 0 by { HeldAreUsed(s, Uses(ops, cap)); }
    forall x | LastUse(ops, cap, x) > 0 ensures exists i :: 0 <= i < |ops| && ops[i].key == x { UsedIsOperated(ops, cap, x); }
    if k in Keys(s) {
      SubsetSize(UsedSince(ops, cap, n), Keys(s));
    } else if n > 0 {
      SubsetSize(Keys(s) + {k}, UsedSince(ops, cap, n));
    }
  }

  lemma HeldAreUsed<K(!new), V(!new)>(s: Recency<K, V>, rank: K -> nat)
    requires Ordered(s, rank)
    ensures forall x :: x in Keys(s) ==> rank(x) > 0
  {
  }
}
