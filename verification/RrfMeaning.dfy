/** What the fused result says in terms of the channels: payloads, scores, order and what is left out. */
module RrfMeaning {
  import opened Sorting
  import opened RrfMerge

  /** What the first `n` places of one channel add to an id: one over `k` plus the rank, ranks counted from one. */
  ghost function InChannel(list: seq<Hit>, k: int, id: string, n: nat): real
    requires k > 0 && n <= |list|
  {
    if n == 0 then 0.0 else InChannel(list, k, id, n - 1) + if list[n - 1].id == id then 1.0 / (k + n) as real else 0.0
  }

  /** The reciprocal-rank sum over all channels. */
  ghost function Fused(channels: seq<seq<Hit>>, k: int, id: string): real
    requires k > 0
  {
    if channels == [] then 0.0
    else
      var n := |channels| - 1;
      Fused(channels[..n], k, id) + InChannel(channels[n], k, id, |channels[n]|)
  }

  /** The id stands at rank `r` of channel `c`. */
  ghost predicate StandsAt(channels: seq<seq<Hit>>, id: string, c: nat, r: nat) {
    c < |channels| && r < |channels[c]| && channels[c][r].id == id
  }

  /** And nowhere in a channel before, or higher in that one. */
  ghost predicate FirstStand(channels: seq<seq<Hit>>, id: string, c: nat, r: nat) {
    && StandsAt(channels, id, c, r)
    && (forall c': nat, r': nat :: StandsAt(channels, id, c', r') ==> c < c' || (c == c' && r <= r'))
  }

  lemma {:induction false} ChannelSum(list: seq<Hit>, k: int, id: string, n: nat)
    requires k > 0 && n <= |list|
    ensures Score(Occurrences(list)[..n], k, id) == InChannel(list, k, id, n)
    decreases n
  {
    if n > 0 {
      ChannelSum(list, k, id, n - 1);
      var occ := Occurrences(list)[..n];
      assert occ[..n - 1] == Occurrences(list)[..n - 1] && occ[n - 1] == Ranked(n - 1, list[n - 1]);
    }
  }

  lemma {:induction false} ScoreIsFused(channels: seq<seq<Hit>>, k: int, id: string)
    requires k > 0
    ensures Score(Flatten(channels), k, id) == Fused(channels, k, id)
  {
    if channels != [] {
      var n := |channels| - 1;
      ScoreIsFused(channels[..n], k, id);
      ScoreJoin(Flatten(channels[..n]), Occurrences(channels[n]), k, id);
      ChannelSum(channels[n], k, id, |channels[n]|);
      assert Occurrences(channels[n])[..|channels[n]|] == Occurrences(channels[n]);
    }
  }

  // ----- the first place of an id

  lemma {:induction false} FirstJoin(x: seq<Ranked>, y: seq<Ranked>, id: string)
    requires Occurs(x + y, id)
    ensures Occurs(x, id) ==> First(x + y, id) == First(x, id)
    ensures !Occurs(x, id) ==> Occurs(y, id) && First(x + y, id) == First(y, id)
  {
    if x == [] {
      assert x + y == y;
    } else {
      assert (x + y)[0] == x[0] && (x + y)[1..] == x[1..] + y;
      var i :| 0 <= i < |x + y| && (x + y)[i].hit.id == id;
      if x[0].hit.id == id {
        assert Occurs(x, id);
      } else {
        assert (x[1..] + y)[i - 1].hit.id == id;
        FirstJoin(x[1..], y, id);
        if Occurs(x, id) {
          var j :| 0 <= j < |x| && x[j].hit.id == id;
          assert x[1..][j - 1].hit.id == id;
        } else {
          assert forall j :: 0 <= j < |x| - 1 ==> x[1..][j] == x[j + 1];
        }
      }
    }
  }

  lemma {:induction false} FirstIn(list: seq<Ranked>, id: string) returns (r: nat)
    requires Occurs(list, id)
    ensures r < |list| && list[r].hit == First(list, id) && list[r].hit.id == id
    ensures forall j :: 0 <= j < r ==> list[j].hit.id != id
  {
    if list[0].hit.id == id {
      r := 0;
    } else {
      var i :| 0 <= i < |list| && list[i].hit.id == id;
      assert list[1..][i - 1] == list[i];
      r := FirstIn(list[1..], id);
      r := r + 1;
    }
  }

  lemma {:induction false} OccursSomewhere(channels: seq<seq<Hit>>, id: string)
    ensures Occurs(Flatten(channels), id) <==> exists c: nat, r: nat :: StandsAt(channels, id, c, r)
  {
    if channels != [] {
      var n := |channels| - 1;
      var init, last := channels[..n], Occurrences(channels[n]);
      OccursSomewhere(init, id);
      OccursJoin(Flatten(init), last, id);
      if c: nat, r: nat :| StandsAt(channels, id, c, r) {
        if c < n { assert StandsAt(init, id, c, r); } else { assert last[r].hit.id == id; }
      }
      if c: nat, r: nat :| StandsAt(init, id, c, r) { assert StandsAt(channels, id, c, r); }
      if Occurs(last, id) {
        var r :| 0 <= r < |last| && last[r].hit.id == id;
        assert StandsAt(channels, id, n, r);
      }
    }
  }

  lemma OccursJoin(x: seq<Ranked>, y: seq<Ranked>, id: string)
    ensures Occurs(x + y, id) <==> Occurs(x, id) || Occurs(y, id)
  {
    if Occurs(x, id) {
      var i :| 0 <= i < |x| && x[i].hit.id == id;
      assert (x + y)[i].hit.id == id;
    }
    if Occurs(y, id) {
      var i :| 0 <= i < |y| && y[i].hit.id == id;
      assert (x + y)[|x| + i].hit.id == id;
    }
  }

  lemma {:induction false} FirstIsFirstStand(channels: seq<seq<Hit>>, id: string) returns (c: nat, r: nat)
    requires Occurs(Flatten(channels), id)
    ensures FirstStand(channels, id, c, r) && channels[c][r] == First(Flatten(channels), id)
  {
    var n := |channels| - 1;
    var init, last := channels[..n], Occurrences(channels[n]);
    OccursJoin(Flatten(init), last, id);
    FirstJoin(Flatten(init), last, id);
    OccursSomewhere(init, id);
    if Occurs(Flatten(init), id) {
      c, r := FirstIsFirstStand(init, id);
      forall c': nat, r': nat | StandsAt(channels, id, c', r') ensures c < c' || (c == c' && r <= r') {
        if c' < n { assert StandsAt(init, id, c', r'); }
      }
    } else {
      c := n;
      r := FirstIn(last, id);
      forall c': nat, r': nat | StandsAt(channels, id, c', r') ensures c < c' || (c == c' && r <= r') {
        if c' == n { assert last[r'].hit.id == id; } else { NotBefore(channels, id, n, c', r'); }
      }
    }
  }

  lemma NotBefore(channels: seq<seq<Hit>>, id: string, n: nat, c: nat, r: nat)
    requires n < |channels| && !Occurs(Flatten(channels[..n]), id) && StandsAt(channels, id, c, r)
    ensures n <= c
  {
    var init := channels[..n];
    OccursSomewhere(init, id);
    assert !StandsAt(init, id, c, r);
  }

  // ----- the result

  /** A returned hit: its id's fused score, the payload of its first place, and "rrf" as its channel. */
  lemma MergedHit(channels: seq<seq<Hit>>, k: int, limit: int, out: seq<Hit>, i: nat) returns (c: nat, r: nat)
    requires IsMerge(channels, k, limit, out) && i < |out|
    ensures FirstStand(channels, out[i].id, c, r) && out[i].chunk == channels[c][r].chunk && out[i].channel == "rrf"
    ensures out[i].score == Fused(channels, if k <= 0 then 60 else k, out[i].id)
  {
    hide Score, First, Occurs, HitLe;
    var occ, d := Flatten(channels), Damping(k);
    var all: seq<Hit> :| Ranking(occ, d, all) && out == if limit > 0 && |all| > limit then all[..limit] else all;
    assert Occurs(occ, all[i].id) && all[i] == Merged(occ, d, all[i].id);
    ScoreIsFused(channels, d, out[i].id);
    c, r := FirstIsFirstStand(channels, out[i].id);
  }

  /** The order: larger scores first, and of equal scores the id that is first in string order. */
  lemma MergedOrder(channels: seq<seq<Hit>>, k: int, limit: int, out: seq<Hit>, i: nat, j: nat)
    requires IsMerge(channels, k, limit, out) && i < j < |out|
    ensures out[i].id != out[j].id
    ensures out[i].score > out[j].score || (out[i].score == out[j].score && LessText(out[i].id, out[j].id))
  {
    hide Score, First, Occurs;
    var occ, d := Flatten(channels), Damping(k);
    var all: seq<Hit> :| Ranking(occ, d, all) && out == if limit > 0 && |all| > limit then all[..limit] else all;
    assert HitLe(all[i], all[j]) && all[i].id != all[j].id;
    StringLeIff(out[i].id, out[j].id);
  }

  /** Nothing that stands in a channel is missing unless the limit is reached; then nothing missing has a larger score than anything returned. */
  lemma MergedAll(channels: seq<seq<Hit>>, k: int, limit: int, out: seq<Hit>, id: string)
    requires IsMerge(channels, k, limit, out)
    requires exists c: nat, r: nat :: StandsAt(channels, id, c, r)
    ensures limit > 0 ==> |out| <= limit
    ensures (exists i :: 0 <= i < |out| && out[i].id == id) || (limit > 0 && |out| == limit &&
      forall i :: 0 <= i < |out| ==> Fused(channels, if k <= 0 then 60 else k, id) <= out[i].score)
  {
    hide Score, First, Occurs;
    var occ, d := Flatten(channels), Damping(k);
    var all: seq<Hit> :| Ranking(occ, d, all) && out == if limit > 0 && |all| > limit then all[..limit] else all;
    OccursSomewhere(channels, id);
    var j :| 0 <= j < |all| && all[j].id == id;
    assert all[j] == Merged(occ, d, id);
    ScoreIsFused(channels, d, id);
    if j < |out| {
      assert out[j].id == id;
    } else {
      forall i | 0 <= i < |out| ensures all[j].score <= out[i].score { assert HitLe(all[i], all[j]); }
    }
  }
}
