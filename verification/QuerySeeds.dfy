/** Validation and deduplication of the seeds of a query (`normaliseSeedsAndWeights`). */
module QuerySeeds {
  import opened Wrappers
  import opened GraphWalks

  const MAX_SEEDS: nat := 50

  datatype SeedError = MutuallyExclusive | NothingGiven | TooMany | Misaligned

  datatype Seeds = Seeds(ids: seq<Id>, weights: seq<real>, from: Id)

  /** Some occurrence of `a` comes before any of `b`. */
  ghost predicate StartsBefore(seeds: seq<Id>, a: Id, b: Id) {
    exists k :: 0 <= k < |seeds| && seeds[k] == a && b !in seeds[..k]
  }

  /** `ids` lists the distinct seeds in the order they first occur. */
  ghost predicate FirstOccurrences(seeds: seq<Id>, ids: seq<Id>) {
    && (forall x :: x in ids <==> x in seeds)
    && (forall i, j :: 0 <= i < j < |ids| ==> ids[i] != ids[j])
    && (forall i, j :: 0 <= i < j < |ids| ==> StartsBefore(seeds, ids[i], ids[j]))
  }

  /** `w` is the largest weight any occurrence of `id` carries. */
  ghost predicate LargestWeight(seeds: seq<Id>, weights: seq<real>, id: Id, w: real)
    requires |weights| == |seeds|
  {
    && (exists k :: 0 <= k < |seeds| && seeds[k] == id && weights[k] == w)
    && (forall k :: 0 <= k < |seeds| && seeds[k] == id ==> weights[k] <= w)
  }

  ghost predicate Deduplicated(seeds: seq<Id>, weights: seq<real>, ids: seq<Id>, best: seq<real>) {
    && |weights| == |seeds| && |best| == |ids|
    && FirstOccurrences(seeds, ids)
    && forall i :: 0 <= i < |ids| ==> LargestWeight(seeds, weights, ids[i], best[i])
  }

  lemma FirstOccurrencesExtend(seeds: seq<Id>, ids: seq<Id>, s: Id)
    requires FirstOccurrences(seeds, ids)
    ensures FirstOccurrences(seeds + [s], if s in ids then ids else ids + [s])
  {
    var seeds' := seeds + [s];
    var ids' := if s in ids then ids else ids + [s];
    forall i, j | 0 <= i < j < |ids'| ensures StartsBefore(seeds', ids'[i], ids'[j]) {
      assert j == |ids| ==> ids[i] in seeds && s !in seeds;
      var k :| 0 <= k < |seeds| && seeds[k] == ids[i] && (j < |ids| ==> ids[j] !in seeds[..k]);
      assert seeds'[..k] == seeds[..k] && seeds'[k] == ids'[i];
    }
    forall x ensures x in ids' <==> x in seeds' {
      assert x in seeds' <==> x in seeds || x == s;
    }
    assert forall i, j :: 0 <= i < j < |ids'| ==> ids'[i] != ids'[j];
  }

  lemma LargestWeightExtends(seeds: seq<Id>, weights: seq<real>, id: Id, w: real, s: Id, v: real)
    requires |weights| == |seeds| && LargestWeight(seeds, weights, id, w)
    ensures LargestWeight(seeds + [s], weights + [v], id, if s == id && v > w then v else w)
  {
    var k :| 0 <= k < |seeds| && seeds[k] == id && weights[k] == w;
    assert (seeds + [s])[k] == id && (weights + [v])[k] == w;
    assert (seeds + [s])[|seeds|] == s && (weights + [v])[|seeds|] == v;
  }

  method Dedup(seeds: seq<Id>, weights: seq<real>) returns (ids: seq<Id>, best: seq<real>)
    requires |weights| == |seeds|
    ensures Deduplicated(seeds, weights, ids, best)
  {
    hide FirstOccurrences, LargestWeight;
    ids, best := [], [];
    var seen: map<Id, nat> := map[];
    assert Deduplicated([], [], [], []) by { NothingDeduplicated(); }
    for i := 0 to |seeds|
      invariant Deduplicated(seeds[..i], weights[..i], ids, best)
      invariant forall s :: s in seen ==> seen[s] < |ids| && ids[seen[s]] == s
      invariant forall s :: s in ids ==> s in seen
    {
      var s := seeds[i];
      assert seeds[..i + 1] == seeds[..i] + [s] && weights[..i + 1] == weights[..i] + [weights[i]];
      FirstOccurrencesExtend(seeds[..i], ids, s);
      WeightsExtend(seeds[..i], weights[..i], ids, best, s, weights[i]);
      if s in seen {
        if weights[i] > best[seen[s]] {
          best := best[seen[s] := weights[i]];
        }
        continue;
      }
      seen := seen[s := |ids|];
      ids := ids + [s];
      best := best + [weights[i]];
    }
    assert seeds[..|seeds|] == seeds && weights[..|seeds|] == weights;
  }

  lemma NothingDeduplicated()
    ensures Deduplicated([], [], [], [])
  {
  }

  /** What one more seed does to the weights on record. */
  lemma WeightsExtend(seeds: seq<Id>, weights: seq<real>, ids: seq<Id>, best: seq<real>, s: Id, v: real)
    requires Deduplicated(seeds, weights, ids, best)
    ensures forall i :: 0 <= i < |ids| ==> LargestWeight(seeds + [s], weights + [v], ids[i], if s == ids[i] && v > best[i] then v else best[i])
    ensures s !in ids ==> LargestWeight(seeds + [s], weights + [v], s, v)
    ensures forall i, j :: 0 <= i < j < |ids| ==> ids[i] != ids[j]
  {
    forall i | 0 <= i < |ids|
      ensures LargestWeight(seeds + [s], weights + [v], ids[i], if s == ids[i] && v > best[i] then v else best[i])
    {
      LargestWeightExtends(seeds, weights, ids[i], best[i], s, v);
    }
    if s !in ids {
      assert (seeds + [s])[|seeds|] == s && (weights + [v])[|seeds|] == v;
      assert forall k :: 0 <= k < |seeds| ==> seeds[k] in seeds;
    }
  }

  /** Which complaint comes first, for arguments that are refused. */
  function SeedErrorOf(from: Id, seeds: seq<Id>): SeedError {
    if from != "" && seeds != [] then MutuallyExclusive
    else if from == "" && seeds == [] then NothingGiven
    else if |seeds| > MAX_SEEDS then TooMany
    else Misaligned
  }

  method NormaliseSeedsAndWeights(from: Id, seeds: seq<Id>, weights: seq<real>) returns (r: Result<Seeds, SeedError>)
    ensures r.Err? ==> r.error == SeedErrorOf(from, seeds)
    ensures r.Ok? <==>
      if from != "" then seeds == []
      else 0 < |seeds| <= 50 && (weights == [] || |weights| == |seeds|)
    ensures r.Ok? && from != "" ==> r.value == Seeds([from], [1.0], from)
    ensures r.Ok? && from == "" ==>
      && r.value.from == ""
      && Deduplicated(seeds, if weights == [] then seq(|seeds|, _ => 1.0) else weights, r.value.ids, r.value.weights)
  {
    hide Deduplicated;
    var hasFrom, hasSeeds := from != "", |seeds| > 0;
    if hasFrom && hasSeeds {
      return Err(MutuallyExclusive);
    }
    if !hasFrom && !hasSeeds {
      return Err(NothingGiven);
    }
    if hasFrom {
      return Ok(Seeds([from], [1.0], from));
    }
    if |seeds| > MAX_SEEDS {
      return Err(TooMany);
    }
    if |weights| > 0 && |weights| != |seeds| {
      return Err(Misaligned);
    }
    var ws := if |weights| == 0 then seq(|seeds|, _ => 1.0) else weights;
    var ids, best := Dedup(seeds, ws);
    return Ok(Seeds(ids, best, ""));
  }
}
