/** `np.argsort(x)`: an ordering of the positions of `x` that lists the
    values in non-decreasing order, and reordering a series by it
    (`y[xi]`).

    numpy's default sort is not stable, so it fixes no order among equal
    values; this model picks the stable one (an insertion sort of the
    positions) and proves only what any argsort guarantees: the result is a
    permutation of the positions and the values it lists are in order. */
module Sorting {
  import opened Counting

  /** `idx` lists positions of `xs`. */
  predicate Positions(idx: seq<nat>, n: nat) {
    forall k :: 0 <= k < |idx| ==> idx[k] < n
  }

  /** The values of `xs` at the positions `idx` are in non-decreasing order:
      `NonDecreasing` of the reordered series, stated on positions so that the
      insertion step can use it before any series is reordered. */
  predicate SortedBy(xs: seq<real>, idx: seq<nat>)
    requires Positions(idx, |xs|)
  {
    forall a, b :: 0 <= a < b < |idx| ==> xs[idx[a]] <= xs[idx[b]]
  }

  /** Inserts position `i` into the sorted `idx`, after every position whose
      value is not larger. */
  function Insert(xs: seq<real>, i: nat, idx: seq<nat>): (r: seq<nat>)
    requires i < |xs| && Positions(idx, |xs|)
    ensures Positions(r, |xs|)
    ensures multiset(r) == multiset(idx) + multiset{i}
    ensures SortedBy(xs, idx) ==> SortedBy(xs, r)
  {
    if |idx| == 0 then [i]
    else if xs[i] < xs[idx[0]] then [i] + idx
    else
      var rest := Insert(xs, i, idx[1..]);
      assert idx == [idx[0]] + idx[1..];
      InsertedHead(xs, idx[0], idx[1..], i, rest);
      [idx[0]] + rest
  }

  /** Putting a position with a value no larger than every other in front
      keeps the order. */
  lemma InsertedHead(xs: seq<real>, h: nat, tail: seq<nat>, i: nat, rest: seq<nat>)
    requires h < |xs| && i < |xs| && Positions(tail, |xs|) && Positions(rest, |xs|)
    requires xs[h] <= xs[i]
    requires multiset(rest) == multiset(tail) + multiset{i}
    requires SortedBy(xs, [h] + tail) ==> SortedBy(xs, rest)
    ensures SortedBy(xs, [h] + tail) ==> SortedBy(xs, [h] + rest)
  {
    if SortedBy(xs, [h] + tail) {
      forall b | 0 <= b < |rest| ensures xs[h] <= xs[rest[b]] {
        assert rest[b] in multiset(rest);
        if rest[b] != i {
          assert rest[b] in multiset(tail);
          assert rest[b] in tail;
          var k :| 0 <= k < |tail| && tail[k] == rest[b];
          var ht := [h] + tail;
          assert ht[0] == h && ht[k + 1] == tail[k];
          assert xs[ht[0]] <= xs[ht[k + 1]];
        }
      }
      var r := [h] + rest;
      forall a, b | 0 <= a < b < |r| ensures xs[r[a]] <= xs[r[b]] {
        if a > 0 {
          assert r[a] == rest[a - 1] && r[b] == rest[b - 1];
        }
      }
    }
  }

  /** The argsort of the first `n` positions. */
  function ArgSortPrefix(xs: seq<real>, n: nat): (idx: seq<nat>)
    requires n <= |xs|
    ensures Positions(idx, |xs|)
    ensures multiset(idx) == multiset(Indices(n))
    ensures SortedBy(xs, idx)
  {
    if n == 0 then []
    else
      assert Indices(n) == Indices(n - 1) + [n - 1];
      Insert(xs, n - 1, ArgSortPrefix(xs, n - 1))
  }

  /** `np.argsort(xs)`: a permutation of `0 .. |xs| - 1` listing the values in
      non-decreasing order. */
  function ArgSort(xs: seq<real>): (idx: seq<nat>)
    ensures |idx| == |xs|
    ensures Positions(idx, |xs|)
    ensures multiset(idx) == multiset(Indices(|xs|))
    ensures SortedBy(xs, idx)
  {
    var idx := ArgSortPrefix(xs, |xs|);
    assert |idx| == |multiset(idx)| == |multiset(Indices(|xs|))|;
    idx
  }

  /** `s[idx]`: the entries of `s` at the listed positions. */
  function Reorder<T>(s: seq<T>, idx: seq<nat>): (r: seq<T>)
    requires Positions(idx, |s|)
    ensures |r| == |idx|
  {
    if |idx| == 0 then [] else [s[idx[0]]] + Reorder(s, idx[1..])
  }

  /** Entry `k` of `s[idx]` is `s[idx[k]]`. */
  lemma {:induction false} ReorderAt<T>(s: seq<T>, idx: seq<nat>)
    requires Positions(idx, |s|)
    ensures forall k :: 0 <= k < |idx| ==> Reorder(s, idx)[k] == s[idx[k]]
    decreases |idx|
  {
    if |idx| > 0 {
      ReorderAt(s, idx[1..]);
    }
  }

  /** Reordering a series by the argsort of `xs` keeps every entry of the
      series, with its multiplicity. */
  lemma ReorderIsPermutation<T>(s: seq<T>, xs: seq<real>)
    requires |s| == |xs|
    ensures multiset(Reorder(s, ArgSort(xs))) == multiset(s)
  {
    PermutedReorder(s, ArgSort(xs));
  }

  /** Reordering by any permutation of the positions keeps every entry. */
  lemma {:induction false} PermutedReorder<T>(s: seq<T>, idx: seq<nat>)
    requires Positions(idx, |s|)
    requires multiset(idx) == multiset(Indices(|s|))
    ensures multiset(Reorder(s, idx)) == multiset(s)
    decreases |s|
  {
    if |s| == 0 {
      assert |idx| == |multiset(idx)| == 0;
    } else {
      var last := |s| - 1;
      var init := s[..last];
      var p := IndicesLast(idx, last);
      var front, back := idx[..p], idx[p + 1..];
      RestIsPermutation(idx, p, last);
      ReorderSplice(s, front, last, back);
      PermutedReorder(init, front + back);
      ReorderInit(s, front + back);
      DropLast(s);
    }
  }

  /** The positions left after removing `n` from a permutation of `0 .. n`
      are a permutation of `0 .. n - 1`. */
  lemma RestIsPermutation(idx: seq<nat>, p: nat, n: nat)
    requires p < |idx| && idx[p] == n
    requires multiset(idx) == multiset(Indices(n)) + multiset{n}
    ensures idx == idx[..p] + ([n] + idx[p + 1..])
    ensures multiset(idx[..p] + idx[p + 1..]) == multiset(Indices(n))
    ensures Positions(idx[..p] + idx[p + 1..], n)
  {
    var rest := idx[..p] + idx[p + 1..];
    RemoveAt(idx, p);
    Cancel(multiset(rest), multiset(Indices(n)), n);
    forall k | 0 <= k < |rest| ensures rest[k] < n {
      BelowIndices(rest[k], n);
    }
  }

  /** A non-empty series is its front plus its last entry. */
  lemma DropLast<T>(s: seq<T>)
    requires |s| > 0
    ensures multiset(s) == multiset(s[..|s| - 1]) + multiset{s[|s| - 1]}
  {
    assert s == s[..|s| - 1] + [s[|s| - 1]];
  }

  /** A permutation of `0 .. n` holds `n` somewhere, and the rest is a
      permutation of `0 .. n - 1`. */
  lemma IndicesLast(idx: seq<nat>, n: nat) returns (p: nat)
    requires multiset(idx) == multiset(Indices(n + 1))
    ensures p < |idx| && idx[p] == n
    ensures multiset(idx) == multiset(Indices(n)) + multiset{n}
  {
    assert Indices(n + 1) == Indices(n) + [n];
    assert n in multiset(Indices(n + 1));
    p :| 0 <= p < |idx| && idx[p] == n;
  }

  /** Dropping the position at `p` drops one copy of it from the index
      multiset. */
  lemma RemoveAt(idx: seq<nat>, p: nat)
    requires p < |idx|
    ensures idx == idx[..p] + ([idx[p]] + idx[p + 1..])
    ensures multiset(idx) == multiset(idx[..p] + idx[p + 1..]) + multiset{idx[p]}
  {
    assert idx == idx[..p] + ([idx[p]] + idx[p + 1..]);
  }

  /** Reordering by `front + [i] + back` gives the entries of reordering by
      `front + back`, plus `s[i]`. */
  lemma ReorderSplice<T>(s: seq<T>, front: seq<nat>, i: nat, back: seq<nat>)
    requires Positions(front, |s|) && i < |s| && Positions(back, |s|)
    ensures Positions(front + ([i] + back), |s|) && Positions(front + back, |s|)
    ensures multiset(Reorder(s, front + ([i] + back))) == multiset(Reorder(s, front + back)) + multiset{s[i]}
  {
    ReorderCons(s, i, back);
    ReorderConcat(s, front, [i] + back);
    ReorderConcat(s, front, back);
  }

  /** Reordering by `[i] + idx` puts `s[i]` in front. */
  lemma ReorderCons<T>(s: seq<T>, i: nat, idx: seq<nat>)
    requires i < |s| && Positions(idx, |s|)
    ensures Positions([i] + idx, |s|)
    ensures Reorder(s, [i] + idx) == [s[i]] + Reorder(s, idx)
  {
    assert ([i] + idx)[1..] == idx;
  }

  /** Multiset union with one copy of `x` cancels. */
  lemma Cancel(a: multiset<nat>, b: multiset<nat>, x: nat)
    requires a + multiset{x} == b + multiset{x}
    ensures a == b
  {
    assert a == (a + multiset{x}) - multiset{x};
    assert b == (b + multiset{x}) - multiset{x};
  }

  /** Positions before the last one pick the same entries from `s` and from
      `s` without its last entry. */
  lemma {:induction false} ReorderInit<T>(s: seq<T>, idx: seq<nat>)
    requires |s| > 0 && Positions(idx, |s| - 1)
    ensures Positions(idx, |s|)
    ensures Reorder(s[..|s| - 1], idx) == Reorder(s, idx)
    decreases |idx|
  {
    if |idx| > 0 {
      ReorderInit(s, idx[1..]);
    }
  }

  /** Every member of `0 .. n - 1` is below `n`. */
  lemma BelowIndices(x: nat, n: nat)
    requires x in multiset(Indices(n))
    ensures x < n
  {
    assert x in Indices(n);
  }

  /** Reordering by a concatenation concatenates the reorderings. */
  lemma {:induction false} ReorderConcat<T>(s: seq<T>, a: seq<nat>, b: seq<nat>)
    requires Positions(a, |s|) && Positions(b, |s|)
    ensures Positions(a + b, |s|)
    ensures Reorder(s, a + b) == Reorder(s, a) + Reorder(s, b)
    decreases |a|
  {
    assert Positions(a + b, |s|) by {
      forall k | 0 <= k < |a + b| ensures (a + b)[k] < |s| {
        if k >= |a| { assert (a + b)[k] == b[k - |a|]; }
      }
    }
    if |a| > 0 {
      ReorderConcat(s, a[1..], b);
      assert (a + b)[1..] == a[1..] + b;
    } else {
      assert a + b == b;
    }
  }
}
