/**
 * The sorting permutation of a list of node coordinates: the role `np.argsort`
 * plays in `Beam._sortNodes`. It is built by inserting indices one at a time,
 * and `ArgSortUnique` shows that for pairwise distinct coordinates no other
 * permutation puts them in strictly ascending order, so the choice of
 * algorithm does not matter.
 */
module Permutations {

  /** Every entry of `p` indexes `xs`. */
  predicate InRange(p: seq<nat>, n: nat) {
    forall k :: 0 <= k < |p| ==> p[k] < n
  }

  /** The coordinates picked out by `p` are strictly ascending. */
  predicate AscendingBy(p: seq<nat>, xs: seq<real>)
    requires InRange(p, |xs|)
  {
    forall a, b :: 0 <= a < b < |p| ==> xs[p[a]] < xs[p[b]]
  }

  /** No coordinate occurs twice. */
  predicate Distinct(xs: seq<real>) {
    forall a, b :: 0 <= a < b < |xs| ==> xs[a] != xs[b]
  }

  /** `p` lists each of 0 .. n-1 exactly once. */
  predicate IsPermutation(p: seq<nat>, n: nat) {
    && |p| == n
    && InRange(p, n)
    && (forall a, b :: 0 <= a < b < n ==> p[a] != p[b])
    && (forall i :: 0 <= i < n ==> i in p)
  }

  /** Inserts index `i` into `p` in front of the first index whose coordinate is larger. */
  function Insert(p: seq<nat>, i: nat, xs: seq<real>): (r: seq<nat>)
    requires i < |xs| && InRange(p, |xs|)
    ensures |r| == |p| + 1 && InRange(r, |xs|)
    ensures forall v :: v in r <==> v in p || v == i
  {
    if p == [] || xs[i] < xs[p[0]] then [i] + p
    else
      var rest := Insert(p[1..], i, xs);
      assert p == [p[0]] + p[1..];
      [p[0]] + rest
  }

  /** The sorting permutation of the first `m` coordinates. */
  function ArgSortPrefix(xs: seq<real>, m: nat): (p: seq<nat>)
    requires m <= |xs|
    ensures |p| == m && InRange(p, m)
    ensures forall i :: 0 <= i < m ==> i in p
  {
    if m == 0 then []
    else
      var q := ArgSortPrefix(xs, m - 1);
      var r := Insert(q, m - 1, xs);
      assert forall k :: 0 <= k < |r| ==> r[k] in r && r[k] < m;
      r
  }

  /** The index permutation that sorts `xs` ascending: `np.argsort(xcoords)` (builder.py:283). */
  function ArgSort(xs: seq<real>): (p: seq<nat>)
    ensures |p| == |xs| && InRange(p, |xs|)
    ensures forall i :: 0 <= i < |xs| ==> i in p
  {
    ArgSortPrefix(xs, |xs|)
  }

  lemma {:induction false} InsertAscending(p: seq<nat>, i: nat, xs: seq<real>)
    requires i < |xs| && InRange(p, |xs|) && AscendingBy(p, xs)
    requires forall k :: 0 <= k < |p| ==> xs[p[k]] != xs[i]
    ensures AscendingBy(Insert(p, i, xs), xs)
  {
    if p == [] || xs[i] < xs[p[0]] {
    } else {
      InsertAscending(p[1..], i, xs);
      var r := Insert(p, i, xs);
      var rest := Insert(p[1..], i, xs);
      assert r == [p[0]] + rest;
      forall b | 1 <= b < |r| ensures xs[r[0]] < xs[r[b]] {
        assert r[b] == rest[b - 1];
        assert r[b] in p[1..] || r[b] == i;
      }
    }
  }

  lemma {:induction false} ArgSortPrefixAscending(xs: seq<real>, m: nat)
    requires m <= |xs| && Distinct(xs)
    ensures AscendingBy(ArgSortPrefix(xs, m), xs)
  {
    if m > 0 {
      var q := ArgSortPrefix(xs, m - 1);
      ArgSortPrefixAscending(xs, m - 1);
      OthersDiffer(xs, q, m - 1);
      InsertAscending(q, m - 1, xs);
      assert ArgSortPrefix(xs, m) == Insert(q, m - 1, xs);
    }
  }

  /** With distinct coordinates, indices below `m` pick coordinates other than the one at `m`. */
  lemma OthersDiffer(xs: seq<real>, q: seq<nat>, m: nat)
    requires Distinct(xs) && m < |xs| && InRange(q, m)
    ensures InRange(q, |xs|) && forall k :: 0 <= k < |q| ==> xs[q[k]] != xs[m]
  {
  }

  /** For distinct coordinates, ArgSort is a permutation that puts them in strictly ascending order. */
  lemma ArgSortCorrect(xs: seq<real>)
    requires Distinct(xs)
    ensures IsPermutation(ArgSort(xs), |xs|)
    ensures AscendingBy(ArgSort(xs), xs)
  {
    ArgSortPrefixAscending(xs, |xs|);
  }

  /** Two permutations that both sort distinct coordinates strictly ascending are equal. */
  lemma {:induction false} ArgSortUnique(xs: seq<real>, p: seq<nat>, q: seq<nat>)
    requires Distinct(xs)
    requires IsPermutation(p, |xs|) && AscendingBy(p, xs)
    requires IsPermutation(q, |xs|) && AscendingBy(q, xs)
    ensures p == q
  {
    var k := 0;
    while k < |xs|
      invariant k <= |xs|
      invariant forall j :: 0 <= j < k ==> p[j] == q[j]
    {
      SamePrefixSameNext(xs, p, q, k);
      SamePrefixSameNext(xs, q, p, k);
      k := k + 1;
    }
  }

  /** If `p` and `q` agree before position k, then `q[k]`'s coordinate is not above `p[k]`'s. */
  lemma SamePrefixSameNext(xs: seq<real>, p: seq<nat>, q: seq<nat>, k: nat)
    requires Distinct(xs)
    requires IsPermutation(p, |xs|) && AscendingBy(p, xs)
    requires IsPermutation(q, |xs|) && AscendingBy(q, xs)
    requires k < |xs| && forall j :: 0 <= j < k ==> p[j] == q[j]
    ensures xs[q[k]] <= xs[p[k]]
  {
    var v := p[k];
    assert v in q;
    var j :| 0 <= j < |q| && q[j] == v;
    assert j >= k;
  }

  function Range(n: nat): (r: seq<nat>)
    ensures |r| == n && forall i :: 0 <= i < n ==> r[i] == i
  {
    seq(n, i requires 0 <= i => i)
  }

  /** Inserting an index whose coordinate is above all others appends it. */
  lemma {:induction false} InsertLargest(p: seq<nat>, i: nat, xs: seq<real>)
    requires i < |xs| && InRange(p, |xs|)
    requires forall k :: 0 <= k < |p| ==> xs[p[k]] < xs[i]
    ensures Insert(p, i, xs) == p + [i]
  {
    if p != [] {
      InsertLargest(p[1..], i, xs);
      assert p == [p[0]] + p[1..];
    }
  }

  /** Coordinates that are already strictly ascending sort to the identity permutation. */
  lemma {:induction false} ArgSortOfAscending(xs: seq<real>, m: nat)
    requires m <= |xs|
    requires forall a, b :: 0 <= a < b < |xs| ==> xs[a] < xs[b]
    ensures ArgSortPrefix(xs, m) == Range(m)
  {
    if m > 0 {
      ArgSortOfAscending(xs, m - 1);
      InsertLargest(Range(m - 1), m - 1, xs);
    }
  }
}
