/**
 A larger cache never does worse: over any run of the same lookups and insertions, what
 the small cache holds the large one holds too, with the same value. A lookup that
 misses need not be followed by an insertion, and a dead entry is dropped where it is
 found, so the two recency orders need not agree as prefixes; what survives is that
 the small one is the large one restricted to its keys, and has no more room to spare.
 */
module LruInclusion {
  import opened Wrappers
  import opened Recency

  datatype Op<K, !V> =
    | Lookup(key: K, live: V -> bool)
    | Insert(key: K, value: V)

  function Do<K(==), V>(s: Recency<K, V>, op: Op<K, V>, cap: nat): Recency<K, V> {
    match op
    case Lookup(k, live) => AfterLookup(s, k, live)
    case Insert(k, v) => AfterInsert(s, k, v, cap)
  }

  function Run<K(==), V>(ops: seq<Op<K, V>>, cap: nat): Recency<K, V> {
    if ops == [] then [] else Do(Run(ops[..|ops| - 1], cap), ops[|ops| - 1], cap)
  }

  /** The entries whose key is in `keys`, in order. */
  ghost function Restrict<K, V>(s: Recency<K, V>, keys: set<K>): Recency<K, V> {
    if s == [] then [] else (if s[0].0 in keys then [s[0]] else []) + Restrict(s[1..], keys)
  }

  lemma {:induction false} RestrictCons<K, V>(p: (K, V), s: Recency<K, V>, keys: set<K>)
    ensures Restrict([p] + s, keys) == (if p.0 in keys then [p] else []) + Restrict(s, keys)
  {
    assert ([p] + s)[1..] == s;
  }

  lemma {:induction false} RestrictWithout<K, V>(s: Recency<K, V>, keys: set<K>, k: K)
    ensures Restrict(Without(s, k), keys) == Without(Restrict(s, keys), k)
    ensures Restrict(s, keys - {k}) == Without(Restrict(s, keys), k)
  {
    if s != [] {
      var p, t := s[0], s[1..];
      RestrictWithout(t, keys, k);
      if p.0 != k {
        assert Without(s, k) == [p] + Without(t, k);
        RestrictCons(p, Without(t, k), keys);
      } else {
        assert Without(s, k) == Without(t, k);
      }
      if p.0 in keys {
        assert Restrict(s, keys) == [p] + Restrict(t, keys);
        assert Restrict(s, keys)[1..] == Restrict(t, keys);
      } else {
        assert Restrict(s, keys) == Restrict(t, keys);
      }
    }
  }

  /** Adding a key the sequence does not hold changes nothing. */
  lemma {:induction false} RestrictMore<K, V>(s: Recency<K, V>, keys: set<K>, k: K)
    requires k !in Keys(s)
    ensures Restrict(s, keys + {k}) == Restrict(s, keys)
  {
    if s != [] {
      assert s == [s[0]] + s[1..];
      KeysCons(s[0], s[1..]);
      RestrictMore(s[1..], keys, k);
    }
  }

  /** The last entry, when it is kept, is kept last. */
  lemma {:induction false} RestrictLast<K, V>(s: Recency<K, V>, keys: set<K>)
    requires s != [] && s[|s| - 1].0 in keys
    ensures Restrict(s, keys) != [] && Restrict(s, keys)[|Restrict(s, keys)| - 1] == s[|s| - 1]
  {
    if |s| > 1 {
      assert s[1..][|s| - 2] == s[|s| - 1];
      RestrictLast(s[1..], keys);
    }
  }

  lemma {:induction false} FindRestricted<K, V>(s: Recency<K, V>, keys: set<K>, k: K)
    ensures Find(Restrict(s, keys), k) == if k in keys then Find(s, k) else None
  {
    if s != [] {
      FindRestricted(s[1..], keys, k);
      var r := Restrict(s, keys);
      assert r[if s[0].0 in keys then 1 else 0..] == Restrict(s[1..], keys);
    }
  }

  lemma DropLastIsWithout<K, V>(s: Recency<K, V>)
    requires DistinctKeys(s) && s != []
    ensures s[..|s| - 1] == Without(s, s[|s| - 1].0)
  {
    WithoutAt(s, |s| - 1);
  }

  /** The small cache is the large one restricted to its keys, and has no more room to spare. */
  ghost predicate Included<K(!new), V(!new)>(small: Recency<K, V>, large: Recency<K, V>, k: nat, K': nat) {
    && 0 < k <= K'
    && WithinCap(small, k) && WithinCap(large, K')
    && small == Restrict(large, Keys(small))
    && k - |small| <= K' - |large|
  }

  lemma LookupKeepsIncluded<K(!new), V(!new)>(small: Recency<K, V>, large: Recency<K, V>, k: nat, K': nat, x: K, live: V -> bool)
    requires Included(small, large, k, K')
    ensures Included(AfterLookup(small, x, live), AfterLookup(large, x, live), k, K')
  {
    var keys := Keys(small);
    LookupWithinCap(small, x, live, k);
    LookupWithinCap(large, x, live, K');
    FindRestricted(large, keys, x);
    RestrictWithout(large, keys, x);
    WithoutKeys(small, x);
    WithoutDistinct(small, x);
    WithoutDistinct(large, x);
    match Find(large, x)
    case None =>
    case Some(v) =>
      if live(v) {
        RestrictCons((x, v), Without(large, x), keys);
        KeysCons((x, v), Without(small, x));
        if x in keys {
          assert Keys(AfterLookup(small, x, live)) == keys;
        }
      } else {
        RestrictWithout(Without(large, x), keys, x);
        WithoutKeys(Without(small, x), x);
      }
  }

  ghost function Fronted<K, V>(s: Recency<K, V>, x: K, v: V): Recency<K, V> {
    [(x, v)] + Without(s, x)
  }

  lemma FrontedIncluded<K(!new), V(!new)>(small: Recency<K, V>, large: Recency<K, V>, x: K, v: V)
    requires small == Restrict(large, Keys(small))
    ensures Keys(Fronted(small, x, v)) == Keys(small) + {x}
    ensures Fronted(small, x, v) == Restrict(Fronted(large, x, v), Keys(small) + {x})
  {
    var keys := Keys(small);
    WithoutKeys(small, x);
    KeysCons((x, v), Without(small, x));
    RestrictCons((x, v), Without(large, x), keys + {x});
    WithoutKeys(large, x);
    RestrictMore(Without(large, x), keys, x);
    RestrictWithout(large, keys, x);
  }

  /** Dropping the last entry of both keeps one the restriction of the other. */
  lemma EvictionIncluded<K(!new), V(!new)>(ts: Recency<K, V>, tl: Recency<K, V>, both: bool)
    requires DistinctKeys(ts) && DistinctKeys(tl) && ts != [] && tl != []
    requires ts == Restrict(tl, Keys(ts))
    ensures
      var small := ts[..|ts| - 1];
      var large := if both then tl[..|tl| - 1] else tl;
      small == Restrict(large, Keys(small))
  {
    var eS, eL := ts[|ts| - 1].0, tl[|tl| - 1].0;
    DropLastIsWithout(ts);
    DropLastIsWithout(tl);
    var small := Without(ts, eS);
    WithoutKeys(ts, eS);
    RestrictWithout(tl, Keys(ts), eS);
    if both {
      if eL in Keys(ts) { RestrictLast(tl, Keys(ts)); }
      RestrictWithout(tl, Keys(small), eL);
      WithoutKeys(small, eL);
    }
  }

  lemma InsertKeepsIncluded<K(!new), V(!new)>(small: Recency<K, V>, large: Recency<K, V>, k: nat, K': nat, x: K, v: V)
    requires Included(small, large, k, K')
    ensures Included(AfterInsert(small, x, v, k), AfterInsert(large, x, v, K'), k, K')
  {
    var ts, tl := Fronted(small, x, v), Fronted(large, x, v);
    InsertWithinCap(small, x, v, k);
    InsertWithinCap(large, x, v, K');
    FrontedIncluded(small, large, x, v);
    FrontedSize(small, x, v);
    FrontedSize(large, x, v);
    RestrictedKeys(large, Keys(small), x);
    if x !in Keys(small) && |ts| > k {
      EvictionIncluded(ts, tl, x !in Keys(large) && |tl| > K');
    }
  }

  lemma FrontedSize<K(!new), V(!new)>(s: Recency<K, V>, x: K, v: V)
    requires DistinctKeys(s)
    ensures DistinctKeys(Fronted(s, x, v))
    ensures |Fronted(s, x, v)| == if x in Keys(s) then |s| else |s| + 1
  {
    WithoutDistinct(s, x);
    WithoutKeys(s, x);
    DistinctCons((x, v), Without(s, x));
  }

  lemma RestrictedKeys<K(!new), V(!new)>(s: Recency<K, V>, keys: set<K>, x: K)
    ensures x in Keys(Restrict(s, keys)) ==> x in Keys(s)
  {
    FindRestricted(s, keys, x);
  }

  lemma {:induction false} RunsIncluded<K(!new), V(!new)>(ops: seq<Op<K, V>>, k: nat, K': nat)
    requires 0 < k <= K'
    ensures Included(Run(ops, k), Run(ops, K'), k, K')
  {
    if ops != [] {
      RunsIncluded(ops[..|ops| - 1], k, K');
      var small, large := Run(ops[..|ops| - 1], k), Run(ops[..|ops| - 1], K');
      match ops[|ops| - 1]
      case Lookup(x, live) => LookupKeepsIncluded(small, large, k, K', x, live);
      case Insert(x, v) => InsertKeepsIncluded(small, large, k, K', x, v);
    }
  }

  /** LRU inclusion over whole runs. */
  lemma LargerCacheHoldsMore<K(!new), V(!new)>(ops: seq<Op<K, V>>, k: nat, K': nat, x: K)
    requires 0 < k <= K'
    ensures Find(Run(ops, k), x).Some? ==> Find(Run(ops, K'), x) == Find(Run(ops, k), x)
  {
    RunsIncluded(ops, k, K');
    FindRestricted(Run(ops, K'), Keys(Run(ops, k)), x);
  }
}
