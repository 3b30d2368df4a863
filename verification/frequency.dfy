/**
  `FreqDist(pool).most_common(k)`: the distinct entries of a pool ordered by
  how often they occur, most frequent first, cut to the first `k`. A
  `FreqDist` is a `Counter`, whose `most_common` sorts stably by count, so
  entries of equal count keep the order in which the pool first shows them.
 */
module Frequency {
  import opened Seqs

  /** Counts never increase along `top`. */
  ghost predicate NonIncreasing(top: seq<string>, pool: seq<string>) {
    forall i, j :: 0 <= i < j < |top| ==> Count(pool, top[i]) >= Count(pool, top[j])
  }

  /** `a` precedes `b` in `most_common`'s order over the candidates `cands`: it counts more, or
      as much and comes first. */
  ghost predicate RanksBefore(cands: seq<string>, pool: seq<string>, a: string, b: string)
    requires a in cands && b in cands
  {
    Count(pool, a) > Count(pool, b) || (Count(pool, a) == Count(pool, b) && IndexOf(cands, a) < IndexOf(cands, b))
  }

  /** `top` is taken from `cands` in rank order, and everything left out ranks below all of it. */
  ghost predicate InRankOrder(top: seq<string>, cands: seq<string>, pool: seq<string>) {
    && (forall x :: x in top ==> x in cands)
    && (forall i, j :: 0 <= i < j < |top| ==> RanksBefore(cands, pool, top[i], top[j]))
    && (forall x, i :: x in cands && x !in top && 0 <= i < |top| ==> RanksBefore(cands, pool, top[i], x))
  }

  /** Position of an entry of highest count (the first such entry). */
  function MaxIndex(cands: seq<string>, pool: seq<string>): (m: nat)
    requires |cands| > 0
    ensures m < |cands|
    ensures forall i :: 0 <= i < |cands| ==> Count(pool, cands[i]) <= Count(pool, cands[m])
    ensures forall i :: 0 <= i < m ==> Count(pool, cands[i]) < Count(pool, cands[m])
  {
    if |cands| == 1 then 0
    else
      var m := MaxIndex(cands[1..], pool) + 1;
      if Count(pool, cands[0]) >= Count(pool, cands[m]) then 0 else m
  }

  function RemoveAt(xs: seq<string>, m: nat): (r: seq<string>)
    requires m < |xs|
    requires Distinct(xs)
    ensures |r| == |xs| - 1
    ensures Distinct(r)
    ensures forall x :: x in r <==> x in xs && x != xs[m]
    ensures forall i :: 0 <= i < |r| ==> r[i] == if i < m then xs[i] else xs[i + 1]
  {
    var r := xs[..m] + xs[m + 1..];
    assert forall i :: 0 <= i < |r| ==> r[i] == (if i < m then xs[i] else xs[i + 1]);
    r
  }

  /** Removing an entry shifts the later positions down by one. */
  lemma RemoveAtIndex(xs: seq<string>, m: nat, x: string)
    requires Distinct(xs) && m < |xs|
    requires x in RemoveAt(xs, m)
    ensures IndexOf(RemoveAt(xs, m), x) == if IndexOf(xs, x) < m then IndexOf(xs, x) else IndexOf(xs, x) - 1
  {
    var r := RemoveAt(xs, m);
    var p := IndexOf(xs, x);
    var q := if p < m then p else p - 1;
    assert r[q] == x;
    IndexOfDistinct(r, q);
  }

  /** Removing an entry keeps the order of the others, and so their ranks. */
  lemma RemoveAtRanks(xs: seq<string>, pool: seq<string>, m: nat, a: string, b: string)
    requires Distinct(xs) && m < |xs|
    requires a in RemoveAt(xs, m) && b in RemoveAt(xs, m)
    ensures RanksBefore(RemoveAt(xs, m), pool, a, b) <==> RanksBefore(xs, pool, a, b)
  {
    RemoveAtIndex(xs, m, a);
    RemoveAtIndex(xs, m, b);
  }

  /** The entry `MaxIndex` picks ranks before every other candidate. */
  lemma MaxIndexRanksFirst(cands: seq<string>, pool: seq<string>, x: string)
    requires Distinct(cands) && |cands| > 0
    requires x in cands && x != cands[MaxIndex(cands, pool)]
    ensures RanksBefore(cands, pool, cands[MaxIndex(cands, pool)], x)
  {
    var m := MaxIndex(cands, pool);
    IndexOfDistinct(cands, m);
    var j := IndexOf(cands, x);
    assert j != m;
  }

  /** Putting the first-ranked entry in front of a rank-ordered list of the remaining candidates
      gives a rank-ordered list of all candidates. */
  lemma PrependBestRanked(cands: seq<string>, pool: seq<string>, tail: seq<string>)
    requires Distinct(cands) && |cands| > 0
    requires InRankOrder(tail, RemoveAt(cands, MaxIndex(cands, pool)), pool)
    ensures InRankOrder([cands[MaxIndex(cands, pool)]] + tail, cands, pool)
  {
    var m := MaxIndex(cands, pool);
    var best := cands[m];
    var rest := RemoveAt(cands, m);
    var top := [best] + tail;
    assert forall i :: 0 < i < |top| ==> top[i] == tail[i - 1];
    forall i, j | 0 <= i < j < |top|
      ensures RanksBefore(cands, pool, top[i], top[j])
    {
      if i == 0 {
        MaxIndexRanksFirst(cands, pool, top[j]);
      } else {
        RemoveAtRanks(cands, pool, m, tail[i - 1], tail[j - 1]);
      }
    }
    forall x, i | x in cands && x !in top && 0 <= i < |top|
      ensures RanksBefore(cands, pool, top[i], x)
    {
      if i == 0 {
        MaxIndexRanksFirst(cands, pool, x);
      } else {
        assert x in rest;
        RemoveAtRanks(cands, pool, m, tail[i - 1], x);
      }
    }
  }

  /** Putting an entry of highest count in front of a top list of the remaining candidates
      gives a top list of all candidates. */
  lemma PrependBest(cands: seq<string>, pool: seq<string>, best: string, rest: seq<string>, tail: seq<string>)
    requires best in cands
    requires forall x :: x in cands ==> Count(pool, x) <= Count(pool, best)
    requires forall x :: x in rest <==> x in cands && x != best
    requires Distinct(tail) && NonIncreasing(tail, pool)
    requires forall x :: x in tail ==> x in rest
    requires forall x, i :: x in rest && x !in tail && 0 <= i < |tail| ==> Count(pool, x) <= Count(pool, tail[i])
    ensures Distinct([best] + tail)
    ensures NonIncreasing([best] + tail, pool)
    ensures forall x :: x in [best] + tail ==> x in cands
    ensures forall x, i :: x in cands && x !in [best] + tail && 0 <= i < |[best] + tail| ==>
      Count(pool, x) <= Count(pool, ([best] + tail)[i])
  {
    var top := [best] + tail;
    assert forall i :: 0 < i < |top| ==> top[i] == tail[i - 1];
    forall x, i | x in cands && x !in top && 0 <= i < |top|
      ensures Count(pool, x) <= Count(pool, top[i])
    {
      assert x in rest;
      if i > 0 {
        assert top[i] == tail[i - 1];
      }
    }
  }

  /** Repeatedly takes an entry of highest count out of the candidates, `k` times at most. */
  function TopK(cands: seq<string>, pool: seq<string>, k: nat): (top: seq<string>)
    requires Distinct(cands)
    ensures |top| == if k < |cands| then k else |cands|
    ensures Distinct(top)
    ensures forall x :: x in top ==> x in cands
    ensures NonIncreasing(top, pool)
    ensures forall x, i :: x in cands && x !in top && 0 <= i < |top| ==> Count(pool, x) <= Count(pool, top[i])
    ensures InRankOrder(top, cands, pool)
    decreases k
  {
    if k == 0 || cands == [] then []
    else
      var m := MaxIndex(cands, pool);
      var best := cands[m];
      var rest := RemoveAt(cands, m);
      var tail := TopK(rest, pool, k - 1);
      PrependBest(cands, pool, best, rest, tail);
      PrependBestRanked(cands, pool, tail);
      [best] + tail
  }

  /** `top` is what `most_common(k)` gives for `pool`: `k` distinct pool entries, or all of them
      when there are fewer, by non-increasing count, none left out counting more than one kept,
      and ties in the order the pool first shows them. */
  ghost predicate MostCommonOf(top: seq<string>, pool: seq<string>, k: nat) {
    && |top| == (if k < |Dedup(pool)| then k else |Dedup(pool)|)
    && Distinct(top)
    && (forall x :: x in top ==> x in pool)
    && NonIncreasing(top, pool)
    && (forall x, i :: x in pool && x !in top && 0 <= i < |top| ==> Count(pool, x) <= Count(pool, top[i]))
    && InRankOrder(top, Dedup(pool), pool)
  }

  /** `FreqDist(pool).most_common(k)`, keys only: distinct pool entries by decreasing count. */
  function MostCommon(pool: seq<string>, k: nat): (top: seq<string>)
    ensures MostCommonOf(top, pool, k)
    ensures top == [] <==> pool == [] || k == 0
  {
    var cands := Dedup(pool);
    assert pool != [] ==> pool[0] in cands;
    TopK(cands, pool, k)
  }

  /** The first entry of a most-common list is an entry of highest count in the whole pool. */
  lemma MostCommonFirstIsMax(top: seq<string>, pool: seq<string>, k: nat)
    requires MostCommonOf(top, pool, k) && top != []
    ensures forall x :: x in pool ==> Count(pool, x) <= Count(pool, top[0])
  {
    forall x | x in pool
      ensures Count(pool, x) <= Count(pool, top[0])
    {
      if x in top {
        var j :| 0 <= j < |top| && top[j] == x;
        if j > 0 {
          assert Count(pool, top[0]) >= Count(pool, top[j]);
        }
      }
    }
  }

  /** When `k` reaches the number of distinct entries, every entry of the pool is kept. */
  lemma MostCommonKeepsAll(top: seq<string>, pool: seq<string>, k: nat)
    requires MostCommonOf(top, pool, k) && k >= |Dedup(pool)|
    ensures forall x :: x in pool <==> x in top
  {
    var kept := set x | x in top;
    var all := set x | x in Dedup(pool);
    DistinctCard(top);
    DistinctCard(Dedup(pool));
    assert kept <= all;
    assert |kept| == |all|;
    SubsetOfEqualSize(kept, all);
    forall x | x in pool
      ensures x in top
    {
      assert x in Dedup(pool);
      assert x in all;
    }
  }

  /** Rank order is strict: no two entries precede each other. */
  lemma RanksBeforeAsymmetric(cands: seq<string>, pool: seq<string>, a: string, b: string)
    requires a in cands && b in cands
    ensures !(RanksBefore(cands, pool, a, b) && RanksBefore(cands, pool, b, a))
  {
  }

  /** Where two rank-ordered lists of the same length agree before position `i`, the first
      list's entry at `i` is the second's or ranks before it. */
  lemma RankedAtLeast(t1: seq<string>, t2: seq<string>, cands: seq<string>, pool: seq<string>, i: nat)
    requires InRankOrder(t1, cands, pool) && InRankOrder(t2, cands, pool)
    requires Distinct(t1) && Distinct(t2) && |t1| == |t2| && i < |t1|
    requires forall j :: 0 <= j < i ==> t1[j] == t2[j]
    ensures t1[i] == t2[i] || RanksBefore(cands, pool, t1[i], t2[i])
  {
    if t1[i] != t2[i] && t2[i] in t1 {
      var j :| 0 <= j < |t1| && t1[j] == t2[i];
      assert i < j;
    }
  }

  /** `most_common(k)` has exactly one answer: ties are settled by first appearance. */
  lemma {:induction false} MostCommonOfUnique(t1: seq<string>, t2: seq<string>, pool: seq<string>, k: nat)
    requires MostCommonOf(t1, pool, k) && MostCommonOf(t2, pool, k)
    ensures t1 == t2
  {
    var cands := Dedup(pool);
    forall i | 0 <= i <= |t1|
      ensures t1[..i] == t2[..i]
    {
      SamePrefix(t1, t2, cands, pool, i);
    }
    assert t1 == t1[..|t1|] && t2 == t2[..|t2|];
  }

  lemma {:induction false} SamePrefix(t1: seq<string>, t2: seq<string>, cands: seq<string>, pool: seq<string>, n: nat)
    requires InRankOrder(t1, cands, pool) && InRankOrder(t2, cands, pool)
    requires Distinct(t1) && Distinct(t2) && |t1| == |t2| && n <= |t1|
    ensures t1[..n] == t2[..n]
  {
    if n > 0 {
      SamePrefix(t1, t2, cands, pool, n - 1);
      var i := n - 1;
      assert forall j :: 0 <= j < i ==> t1[j] == t1[..i][j] == t2[..i][j] == t2[j];
      RankedAtLeast(t1, t2, cands, pool, i);
      RankedAtLeast(t2, t1, cands, pool, i);
      RanksBeforeAsymmetric(cands, pool, t1[i], t2[i]);
      assert t1[..n] == t1[..i] + [t1[i]];
      assert t2[..n] == t2[..i] + [t2[i]];
    }
  }
}
