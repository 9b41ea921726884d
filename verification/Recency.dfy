/**
 The meaning of a least-recently-used cache: a sequence of entries, most recently used
 first, and what one lookup and one insertion do to it.
 */
module Recency {
  import opened Wrappers

  /** Entries, most recently used first. */
  type Recency<K, V> = seq<(K, V)>

  function Keys<K, V>(s: Recency<K, V>): set<K> {
    set i | 0 <= i < |s| :: s[i].0
  }

  ghost predicate DistinctKeys<K, V>(s: Recency<K, V>) {
    forall i, j :: 0 <= i < j < |s| ==> s[i].0 != s[j].0
  }

  function Without<K(==), V>(s: Recency<K, V>, k: K): Recency<K, V> {
    if s == [] then [] else (if s[0].0 == k then [] else [s[0]]) + Without(s[1..], k)
  }

  function Find<K(==), V>(s: Recency<K, V>, k: K): (r: Option<V>)
    ensures r.Some? ==> (k, r.value) in s
    ensures r.None? <==> k !in Keys(s)
  {
    if s == [] then None
    else if s[0].0 == k then
      assert s[0] == (k, s[0].1);
      Some(s[0].1)
    else
      var r := Find(s[1..], k);
      assert Keys(s) == {s[0].0} + Keys(s[1..]) by {
        assert forall i :: 0 < i < |s| ==> s[i] == s[1..][i - 1];
      }
      r
  }

  /** A lookup: a live hit moves to the front, a dead one is dropped, a miss changes nothing. */
  function AfterLookup<K(==), V>(s: Recency<K, V>, k: K, live: V -> bool): Recency<K, V> {
    match Find(s, k)
    case None => s
    case Some(v) => if live(v) then [(k, v)] + Without(s, k) else Without(s, k)
  }

  function Hit<K(==), V>(s: Recency<K, V>, k: K, live: V -> bool): Option<V> {
    match Find(s, k)
    case None => None
    case Some(v) => if live(v) then Some(v) else None
  }

  /** An insertion: to the front, and beyond capacity the entry at the back is dropped. */
  function AfterInsert<K(==), V>(s: Recency<K, V>, k: K, v: V, cap: nat): Recency<K, V> {
    var t := [(k, v)] + Without(s, k);
    if k !in Keys(s) && |t| > cap then t[..|t| - 1] else t
  }

  // ----- facts about the two building blocks

  lemma KeysCons<K, V>(p: (K, V), s: Recency<K, V>)
    ensures Keys([p] + s) == {p.0} + Keys(s)
  {
    var t := [p] + s;
    forall k ensures k in Keys(t) <==> k in {p.0} + Keys(s) {
      if k in Keys(t) {
        var i :| 0 <= i < |t| && t[i].0 == k;
        if i > 0 { assert s[i - 1].0 == k; }
      }
      if k in Keys(s) {
        var i :| 0 <= i < |s| && s[i].0 == k;
        assert t[i + 1].0 == k;
      }
      if k == p.0 { assert t[0].0 == k; }
    }
  }

  lemma {:induction false} WithoutKeys<K, V>(s: Recency<K, V>, k: K)
    ensures Keys(Without(s, k)) == Keys(s) - {k}
    ensures k !in Keys(s) ==> Without(s, k) == s
    ensures |Without(s, k)| <= |s|
  {
    if s != [] {
      WithoutKeys(s[1..], k);
      KeysCons(s[0], s[1..]);
      assert s == [s[0]] + s[1..];
      if s[0].0 != k {
        KeysCons(s[0], Without(s[1..], k));
        assert Without(s, k) == [s[0]] + Without(s[1..], k);
      } else {
        assert Without(s, k) == Without(s[1..], k);
      }
    }
  }

  lemma DistinctTail<K, V>(s: Recency<K, V>)
    requires DistinctKeys(s) && s != []
    ensures DistinctKeys(s[1..]) && s[0].0 !in Keys(s[1..])
  {
  }

  lemma DistinctCons<K, V>(p: (K, V), s: Recency<K, V>)
    requires DistinctKeys(s) && p.0 !in Keys(s)
    ensures DistinctKeys([p] + s)
  {
    var t := [p] + s;
    forall i, j | 0 <= i < j < |t| ensures t[i].0 != t[j].0 {
      assert t[j] == s[j - 1];
      if i == 0 { assert s[j - 1].0 in Keys(s); }
    }
  }

  lemma {:induction false} WithoutDistinct<K, V>(s: Recency<K, V>, k: K)
    requires DistinctKeys(s)
    ensures DistinctKeys(Without(s, k))
    ensures k in Keys(s) ==> |Without(s, k)| == |s| - 1
  {
    if s != [] {
      DistinctTail(s);
      WithoutDistinct(s[1..], k);
      WithoutKeys(s[1..], k);
      KeysCons(s[0], s[1..]);
      assert s == [s[0]] + s[1..];
      if s[0].0 != k { DistinctCons(s[0], Without(s[1..], k)); }
    }
  }

  lemma {:induction false} WithoutAt<K, V>(s: Recency<K, V>, i: nat)
    requires DistinctKeys(s) && i < |s|
    ensures Without(s, s[i].0) == s[..i] + s[i + 1..]
    ensures Find(s, s[i].0) == Some(s[i].1)
  {
    DistinctTail(s);
    if i == 0 {
      WithoutKeys(s[1..], s[0].0);
    } else {
      assert s[i] == s[1..][i - 1];
      WithoutAt(s[1..], i - 1);
      assert s[1..][..i - 1] == s[1..i];
      assert s[1..][i..] == s[i + 1..];
    }
  }

  /** An entry survives the removal of any other key. */
  lemma {:induction false} WithoutKeepsEntries<K, V>(s: Recency<K, V>, k: K, p: (K, V))
    ensures p in Without(s, k) <==> p in s && p.0 != k
  {
    if s != [] {
      assert s == [s[0]] + s[1..];
      WithoutKeepsEntries(s[1..], k, p);
    }
  }

  /** Well-formed: no key twice, and within capacity. */
  ghost predicate WithinCap<K, V>(s: Recency<K, V>, cap: nat) {
    DistinctKeys(s) && |s| <= cap
  }

  lemma LookupWithinCap<K, V>(s: Recency<K, V>, k: K, live: V -> bool, cap: nat)
    requires WithinCap(s, cap)
    ensures WithinCap(AfterLookup(s, k, live), cap)
    ensures Keys(AfterLookup(s, k, live)) <= Keys(s)
  {
    WithoutDistinct(s, k);
    WithoutKeys(s, k);
    match Find(s, k)
    case None =>
    case Some(v) =>
      DistinctCons((k, v), Without(s, k));
      KeysCons((k, v), Without(s, k));
  }

  lemma InsertWithinCap<K, V>(s: Recency<K, V>, k: K, v: V, cap: nat)
    requires WithinCap(s, cap) && cap > 0
    ensures WithinCap(AfterInsert(s, k, v, cap), cap)
    ensures AfterInsert(s, k, v, cap) != [] && AfterInsert(s, k, v, cap)[0] == (k, v)
  {
    WithoutDistinct(s, k);
    WithoutKeys(s, k);
    DistinctCons((k, v), Without(s, k));
  }

  /** What was just inserted is found, and every other entry still held keeps its value. */
  lemma InsertedIsFound<K(!new), V(!new)>(s: Recency<K, V>, k: K, v: V, cap: nat, x: K)
    requires WithinCap(s, cap) && cap > 0
    ensures Find(AfterInsert(s, k, v, cap), k) == Some(v)
    ensures x != k && Find(AfterInsert(s, k, v, cap), x).Some? ==> Find(AfterInsert(s, k, v, cap), x) == Find(s, x)
  {
    var r := AfterInsert(s, k, v, cap);
    InsertWithinCap(s, k, v, cap);
    if x != k && Find(r, x).Some? {
      var p := (x, Find(r, x).value);
      assert p in [(k, v)] + Without(s, k);
      WithoutKeepsEntries(s, k, p);
      var i :| 0 <= i < |s| && s[i] == p;
      WithoutAt(s, i);
    }
  }
}
