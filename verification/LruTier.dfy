/**
 The layered in-memory cache (`internal/cache/cache.go`): two tiers, each a map to
 entries on the heap together with a recency list of the same entries. `container/list`
 is the Go library; a list is modelled by the sequence of its elements, front first.
 */
module LruTier {
  import opened Wrappers
  import opened Recency

  /** What a list element points to; an insertion under a known key overwrites `value` in place. */
  class Entry<K, V> {
    const key: K
    var value: V

    constructor (key: K, value: V)
      ensures this.key == key && this.value == value
    {
      this.key, this.value := key, value;
    }
  }

  function Removed<K, V>(s: seq<Entry<K, V>>, e: Entry<K, V>): seq<Entry<K, V>> {
    if s == [] then [] else if s[0] == e then s[1..] else [s[0]] + Removed(s[1..], e)
  }

  lemma {:induction false} RemovedAt<K, V>(s: seq<Entry<K, V>>, e: Entry<K, V>, i: nat)
    requires i < |s| && s[i] == e && forall j :: 0 <= j < i ==> s[j] != e
    ensures Removed(s, e) == s[..i] + s[i + 1..]
  {
    if i > 0 {
      assert s[1..][i - 1] == e;
      assert forall j :: 0 <= j < i - 1 ==> s[1..][j] == s[j + 1];
      RemovedAt(s[1..], e, i - 1);
    }
  }

  ghost function Pair<K, V>(e: Entry<K, V>): (K, V)
    reads e
  {
    (e.key, e.value)
  }

  /** The map and the list hold the same entries, one per key. */
  ghost predicate Linked<K(!new), V>(index: map<K, Entry<K, V>>, order: seq<Entry<K, V>>) {
    && (forall i, j :: 0 <= i < j < |order| ==> order[i].key != order[j].key)
    && (forall i :: 0 <= i < |order| ==> order[i].key in index && index[order[i].key] == order[i])
    && (forall k :: k in index ==> index[k] in order && index[k].key == k)
  }

  ghost function Listed<K, V>(order: seq<Entry<K, V>>): (s: Recency<K, V>)
    reads order
    ensures |s| == |order|
    ensures forall i :: 0 <= i < |s| ==> s[i] == (order[i].key, order[i].value)
  {
    seq(|order|, i requires 0 <= i < |order| reads order => Pair(order[i]))
  }

  /** Where a key's entry sits in the list, and what taking it out does. */
  lemma Locate<K(!new), V>(index: map<K, Entry<K, V>>, order: seq<Entry<K, V>>, k: K) returns (i: nat)
    requires Linked(index, order) && k in index
    ensures i < |order| && order[i] == index[k] && order[i].key == k
    ensures Removed(order, index[k]) == order[..i] + order[i + 1..]
    ensures index[k] !in order[..i] + order[i + 1..]
    ensures Linked(index - {k}, order[..i] + order[i + 1..])
    ensures Linked(index, [index[k]] + (order[..i] + order[i + 1..]))
  {
    i :| 0 <= i < |order| && order[i] == index[k];
    assert forall j :: 0 <= j < i ==> order[j].key != k;
    RemovedAt(order, index[k], i);
    LinkedWithout(index, order, i);
    var rest := order[..i] + order[i + 1..];
    LinkedInFront(index, rest, index[k]);
    assert forall j :: 0 <= j < |rest| ==> rest[j].key != k;
  }

  lemma LinkedWithout<K(!new), V>(index: map<K, Entry<K, V>>, order: seq<Entry<K, V>>, i: nat)
    requires Linked(index, order) && i < |order|
    ensures Linked(index - {order[i].key}, order[..i] + order[i + 1..])
  {
    var k := order[i].key;
    var rest := order[..i] + order[i + 1..];
    assert forall j :: 0 <= j < |rest| ==> rest[j] == order[if j < i then j else j + 1];
    forall x | x in index && x != k ensures index[x] in rest {
      var j :| 0 <= j < |order| && order[j] == index[x];
      assert rest[if j < i then j else j - 1] == index[x];
    }
  }

  lemma LinkedInFront<K(!new), V>(index: map<K, Entry<K, V>>, rest: seq<Entry<K, V>>, e: Entry<K, V>)
    requires Linked(index - {e.key}, rest) && e.key in index && index[e.key] == e
    ensures Linked(index, [e] + rest)
  {
    var t := [e] + rest;
    assert forall j :: 0 < j < |t| ==> t[j] == rest[j - 1];
    forall x | x in index ensures index[x] in t && index[x].key == x {
      if x != e.key { assert x in index - {e.key}; }
    }
  }

  /** The same, seen in the recency sequence the list stands for. */
  lemma LocateListed<K(!new), V>(index: map<K, Entry<K, V>>, order: seq<Entry<K, V>>, k: K, i: nat)
    requires Linked(index, order) && i < |order| && order[i].key == k
    ensures Find(Listed(order), k) == Some(order[i].value)
    ensures k in Keys(Listed(order))
    ensures Without(Listed(order), k) == Listed(order[..i] + order[i + 1..])
  {
    var s := Listed(order);
    assert s[i].0 == k;
    assert forall a, b :: 0 <= a < b < |s| ==> s[a].0 != s[b].0;
    WithoutAt(s, i);
    ListedWithout(order, i);
  }

  lemma ListedWithout<K(!new), V>(order: seq<Entry<K, V>>, i: nat)
    requires i < |order|
    ensures Listed(order)[..i] + Listed(order)[i + 1..] == Listed(order[..i] + order[i + 1..])
  {
  }

  lemma ListedPrefix<K(!new), V>(order: seq<Entry<K, V>>, n: nat)
    requires n <= |order|
    ensures Listed(order[..n]) == Listed(order)[..n]
  {
  }

  lemma ListedInFront<K(!new), V>(e: Entry<K, V>, rest: seq<Entry<K, V>>)
    ensures Listed([e] + rest) == [(e.key, e.value)] + Listed(rest)
  {
  }

  lemma AbsentListed<K(!new), V>(index: map<K, Entry<K, V>>, order: seq<Entry<K, V>>, k: K)
    requires Linked(index, order) && k !in index
    ensures Find(Listed(order), k) == None && k !in Keys(Listed(order))
    ensures Without(Listed(order), k) == Listed(order)
  {
    forall i | 0 <= i < |order| ensures Listed(order)[i].0 != k { assert order[i].key in index; }
    WithoutKeys(Listed(order), k);
  }

  /** One tier: `files` with `fileOrder`, or `layers` with `layerOrder`. */
  class Tier<K(==, !new), V(!new)> {
    const cap: nat
    var index: map<K, Entry<K, V>>
    var order: seq<Entry<K, V>>

    ghost predicate Valid()
      reads this
    {
      0 < cap && |order| <= cap && Linked(index, order)
    }

    /** The tier as a recency sequence. */
    ghost function Contents(): Recency<K, V>
      reads this, order
    {
      Listed(order)
    }

    constructor (cap: nat)
      requires cap > 0
      ensures Valid() && Contents() == [] && this.cap == cap && order == []
    {
      this.cap := cap;
      index, order := map[], [];
    }

    /** `Remove` on the list and `delete` on the map. */
    method Drop(k: K)
      requires Valid() && k in index
      modifies this`index, this`order
      ensures Valid()
      ensures Contents() == Without(old(Contents()), k)
      ensures forall e :: e in order ==> e in old(order)
    {
      ghost var i := Locate(index, order, k);
      LocateListed(index, order, k, i);
      order := Removed(order, index[k]);
      index := index - {k};
    }

    method MoveToFront(k: K)
      requires Valid() && k in index
      modifies this`order
      ensures Valid()
      ensures Contents() == [(k, old(index[k].value))] + Without(old(Contents()), k)
      ensures forall e :: e in order ==> e in old(order)
    {
      ghost var i := Locate(index, order, k);
      LocateListed(index, order, k, i);
      ghost var rest := order[..i] + order[i + 1..];
      hide Linked, Without;
      order := [index[k]] + Removed(order, index[k]);
      ListedInFront(index[k], rest);
    }

    /** A lookup, with the caller's test of whether the stored value is still live. */
    method Get(k: K, live: V -> bool) returns (r: Option<V>)
      requires Valid()
      modifies this`index, this`order
      ensures Valid()
      ensures r == Hit(old(Contents()), k, live)
      ensures Contents() == AfterLookup(old(Contents()), k, live)
      ensures forall e :: e in order ==> e in old(order)
    {
      hide Linked, Without;
      if k !in index {
        AbsentListed(index, order, k);
        return None;
      }
      ghost var i := Locate(index, order, k);
      LocateListed(index, order, k, i);
      var e := index[k];
      if !live(e.value) {
        Drop(k);
        return None;
      }
      MoveToFront(k);
      return Some(e.value);
    }

    /** Overwrites the value of a known key in place and makes it most recent. */
    method Refresh(k: K, v: V)
      requires Valid() && k in index
      modifies this`order, order
      ensures Valid()
      ensures Contents() == [(k, v)] + Without(old(Contents()), k)
      ensures forall e :: e in order ==> e in old(order)
    {
      hide Linked, Without, Find, Removed;
      ghost var i := Locate(index, order, k);
      LocateListed(index, order, k, i);
      ghost var rest := order[..i] + order[i + 1..];
      ghost var s := Listed(rest);
      index[k].value := v;
      assert Listed(rest) == s;
      order := [index[k]] + Removed(order, index[k]);
      ListedInFront(index[k], rest);
    }

    method PushFront(k: K, v: V)
      requires 0 < cap && |order| <= cap && Linked(index, order) && k !in index
      modifies this`index, this`order
      ensures Linked(index, order) && |order| == |old(order)| + 1
      ensures Contents() == [(k, v)] + old(Contents())
      ensures forall e :: e in order ==> e in old(order) || fresh(e)
    {
      var e := new Entry(k, v);
      ghost var s := Listed(order);
      order := [e] + order;
      index := index[k := e];
      assert Listed(order) == [(k, v)] + s;
    }

    method DropBack()
      requires 0 < cap && |order| == cap + 1 && Linked(index, order)
      modifies this`index, this`order
      ensures Valid()
      ensures Contents() == old(Contents())[..cap]
      ensures forall e :: e in order ==> e in old(order)
    {
      var back := order[|order| - 1];
      LinkedWithout(index, order, |order| - 1);
      ListedPrefix(order, cap);
      hide Linked, Listed;
      assert order[..cap] + order[cap + 1..] == order[..cap];
      order := order[..|order| - 1];
      index := index - {back.key};
    }

    /** An insertion: refreshes a known key, or adds it and drops the back of a full list. */
    method Put(k: K, v: V)
      requires Valid()
      modifies this`index, this`order, order
      ensures Valid()
      ensures Contents() == AfterInsert(old(Contents()), k, v, cap)
      ensures forall e :: e in order ==> e in old(order) || fresh(e)
    {
      hide Linked, Without;
      if k in index {
        ghost var i := Locate(index, order, k);
        LocateListed(index, order, k, i);
        Refresh(k, v);
        return;
      }
      AbsentListed(index, order, k);
      PushFront(k, v);
      if |order| > cap {
        DropBack();
      }
    }
  }
}
