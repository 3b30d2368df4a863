/** Generic sequence vocabulary shared by the corpus miner and the name miner. */
module Seqs {

  /** No element occurs twice. */
  ghost predicate Distinct<T>(xs: seq<T>) {
    forall i, j :: 0 <= i < j < |xs| ==> xs[i] != xs[j]
  }

  /** `xs` with every occurrence of `x` removed, order kept. */
  function Without<T(==,!new)>(xs: seq<T>, x: T): (r: seq<T>)
    ensures |r| <= |xs|
    ensures forall y :: y in r <==> y in xs && y != x
  {
    if xs == [] then [] else (if xs[0] == x then [] else [xs[0]]) + Without(xs[1..], x)
  }

  /** Reference de-duplication: keep the first occurrence of every element and drop the later ones. */
  function Dedup<T(==,!new)>(xs: seq<T>): (r: seq<T>)
    ensures Distinct(r)
    ensures forall y :: y in r <==> y in xs
    decreases |xs|
  {
    if xs == [] then []
    else
      var rest := Dedup(Without(xs[1..], xs[0]));
      assert xs[0] !in rest;
      [xs[0]] + rest
  }

  /** Number of occurrences of `x` in `xs`. */
  function Count<T(==,!new)>(xs: seq<T>, x: T): (n: nat)
    ensures n <= |xs|
    ensures n > 0 <==> x in xs
  {
    if xs == [] then 0 else (if xs[0] == x then 1 else 0) + Count(xs[1..], x)
  }

  /** Position of the first occurrence of `x` in `xs`. */
  function IndexOf<T(==)>(xs: seq<T>, x: T): (i: nat)
    requires x in xs
    ensures i < |xs| && xs[i] == x
    ensures forall j :: 0 <= j < i ==> xs[j] != x
  {
    if xs[0] == x then 0 else 1 + IndexOf(xs[1..], x)
  }

  /** In a sequence without repetitions every position is the first occurrence of its element. */
  lemma IndexOfDistinct<T>(xs: seq<T>, i: nat)
    requires Distinct(xs) && i < |xs|
    ensures IndexOf(xs, xs[i]) == i
  {
  }

  /** `xs` can be obtained from `ys` by deleting elements. */
  predicate IsSubseq<T(==,!new)>(xs: seq<T>, ys: seq<T>)
    decreases |ys|
  {
    if ys == [] then xs == []
    else
      IsSubseq(xs, ys[..|ys| - 1])
      || (xs != [] && xs[|xs| - 1] == ys[|ys| - 1] && IsSubseq(xs[..|xs| - 1], ys[..|ys| - 1]))
  }

  lemma {:induction false} WithoutAppend<T(!new)>(a: seq<T>, b: seq<T>, x: T)
    ensures Without(a + b, x) == Without(a, x) + Without(b, x)
    decreases |a|
  {
    if a == [] {
      assert a + b == b;
    } else {
      assert (a + b)[1..] == a[1..] + b;
      WithoutAppend(a[1..], b, x);
    }
  }

  /** One step of `Dedup`: the head is kept and its later copies are dropped. */
  lemma DedupCons<T(!new)>(y: T, rest: seq<T>)
    ensures Dedup([y] + rest) == [y] + Dedup(Without(rest, y))
  {
    assert ([y] + rest)[0] == y && ([y] + rest)[1..] == rest;
  }

  lemma AppendAssoc<T>(a: seq<T>, b: seq<T>, c: seq<T>)
    ensures a + (b + c) == a + b + c
  {
  }

  /** Appending an element to the input of `Dedup` appends it to the output exactly when it is new. */
  lemma {:induction false} DedupSnoc<T(!new)>(xs: seq<T>, x: T)
    ensures Dedup(xs + [x]) == if x in xs then Dedup(xs) else Dedup(xs) + [x]
    decreases |xs|
  {
    if xs == [] {
      assert Without([], x) == [];
      DedupCons(x, []);
      assert xs + [x] == [x] + [];
    } else {
      var y := xs[0];
      var t := xs[1..];
      assert xs == [y] + t;
      assert xs + [x] == [y] + (t + [x]);
      DedupCons(y, t + [x]);
      DedupCons(y, t);
      WithoutAppend(t, [x], y);
      if x == y {
        assert Without([x], y) == [];
        assert Without(t, y) + [] == Without(t, y);
      } else {
        assert Without([x], y) == [x];
        DedupSnoc(Without(t, y), x);
        assert x in Without(t, y) <==> x in xs;
        var d := Dedup(Without(t, y));
        assert [y] + (d + [x]) == ([y] + d) + [x];
      }
    }
  }

  /** Appending the same element to both sides keeps a subsequence relation. */
  lemma {:induction false} SubseqSnoc<T(!new)>(xs: seq<T>, ys: seq<T>, y: T)
    requires IsSubseq(xs, ys)
    ensures IsSubseq(xs, ys + [y])
    ensures IsSubseq(xs + [y], ys + [y])
  {
    assert (ys + [y])[..|ys|] == ys;
    assert (xs + [y])[..|xs|] == xs;
  }

  /** Putting the same element in front of both sides keeps a subsequence relation. */
  lemma {:induction false} SubseqCons<T(!new)>(xs: seq<T>, ys: seq<T>, y: T)
    requires IsSubseq(xs, ys)
    ensures IsSubseq(xs, [y] + ys)
    ensures IsSubseq([y] + xs, [y] + ys)
    decreases |ys|
  {
    var zs := [y] + ys;
    if ys == [] {
      assert zs[..0] == [];
      assert ([y] + xs)[..0] == [];
    } else {
      var ys' := ys[..|ys| - 1];
      assert zs[..|zs| - 1] == [y] + ys';
      assert zs[|zs| - 1] == ys[|ys| - 1];
      if IsSubseq(xs, ys') {
        SubseqCons(xs, ys', y);
      } else {
        var xs' := xs[..|xs| - 1];
        SubseqCons(xs', ys', y);
        assert ([y] + xs)[..|xs|] == [y] + xs';
        assert ([y] + xs)[|xs|] == xs[|xs| - 1];
      }
    }
  }

  /** Head and tail of a concatenation with a non-empty front. */
  lemma ConsOfAppend<T>(a: seq<T>, b: seq<T>)
    requires a != []
    ensures (a + b)[0] == a[0]
    ensures (a + b)[1..] == a[1..] + b
  {
  }

  /** A non-empty sequence is its head in front of its tail, and the tail avoids what the whole
      avoids. */
  lemma HeadTail<T>(a: seq<T>, x: T)
    requires a != [] && forall k :: 0 <= k < |a| ==> a[k] != x
    ensures a == [a[0]] + a[1..]
    ensures forall k :: 0 <= k < |a[1..]| ==> a[1..][k] != x
  {
    assert forall k :: 0 <= k < |a[1..]| ==> a[1..][k] == a[k + 1];
  }

  lemma ConsAssoc<T>(c: T, a: seq<T>, b: seq<T>)
    ensures [c] + (a + b) == ([c] + a) + b
  {
  }

  /** A sequence that applies `f` position by position keeps doing so when one more element and
      its image are appended. */
  lemma PointwiseSnoc<T, U>(xs: seq<T>, ys: seq<U>, x: T, y: U, f: T -> U)
    requires |ys| == |xs| && forall i :: 0 <= i < |xs| ==> ys[i] == f(xs[i])
    requires y == f(x)
    ensures forall i :: 0 <= i < |xs| + 1 ==> (ys + [y])[i] == f((xs + [x])[i])
  {
  }

  /** A sequence without repetitions has as many distinct elements as positions. */
  lemma {:induction false} DistinctCard<T>(xs: seq<T>)
    requires Distinct(xs)
    ensures |set x | x in xs| == |xs|
  {
    if xs != [] {
      var rest := xs[1..];
      assert Distinct(rest) by {
        forall i, j | 0 <= i < j < |rest| ensures rest[i] != rest[j] {
          assert rest[i] == xs[i + 1] && rest[j] == xs[j + 1];
        }
      }
      DistinctCard(rest);
      assert xs[0] !in rest by {
        forall i | 0 <= i < |rest| ensures rest[i] != xs[0] {
          assert rest[i] == xs[i + 1];
        }
      }
      assert (set x | x in xs) == {xs[0]} + (set x | x in rest) by {
        assert xs == [xs[0]] + rest;
      }
    }
  }

  /** A subset as large as the whole finite set is the whole set. */
  lemma SubsetOfEqualSize<T>(a: set<T>, b: set<T>)
    requires a <= b && |a| == |b|
    ensures a == b
  {
    if a != b {
      var y :| y in b && y !in a;
      assert a <= b - {y};
      SubsetSize(a, b - {y});
    }
  }

  lemma {:induction false} SubsetSize<T>(a: set<T>, b: set<T>)
    requires a <= b
    ensures |a| <= |b|
  {
    assert b == a + (b - a);
  }
}
