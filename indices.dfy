/** Order-preserving selection from a sequence, as the preprocessor does
    it three times: the reader keeps some rows and projects them, the
    classification loop lists the positions of the records to prune, and
    `np.delete` drops the rows at listed positions. */
module Indices {

  /** The positions of `s` at which `p` holds, ascending. */
  function IndicesWhere<T>(s: seq<T>, p: T -> bool): (r: seq<nat>)
    ensures forall k :: 0 <= k < |r| ==> r[k] < |s| && p(s[r[k]])
    ensures forall k, l :: 0 <= k < l < |r| ==> r[k] < r[l]
    ensures forall i :: 0 <= i < |s| && p(s[i]) ==> i in r
    decreases |s|
  {
    if |s| == 0 then []
    else
      var front := IndicesWhere(s[..|s| - 1], p);
      front + (if p(s[|s| - 1]) then [|s| - 1] else [])
  }

  /** Extending the sequence by one element extends the index list by that
      element's position exactly when the test holds of it. */
  lemma IndicesWhereExtend<T>(s: seq<T>, n: nat, p: T -> bool)
    requires n < |s|
    ensures IndicesWhere(s[..n + 1], p) == IndicesWhere(s[..n], p) + (if p(s[n]) then [n] else [])
  {
    assert s[..n + 1][..n] == s[..n];
  }

  /** Every position satisfies exactly one of `p` and its complement `q`. */
  lemma {:induction false} IndicesPartition<T>(s: seq<T>, p: T -> bool, q: T -> bool)
    requires forall i :: 0 <= i < |s| ==> q(s[i]) == !p(s[i])
    ensures |IndicesWhere(s, p)| + |IndicesWhere(s, q)| == |s|
    decreases |s|
  {
    if |s| > 0 {
      IndicesPartition(s[..|s| - 1], p, q);
    }
  }

  /** The images under `f` of the elements at which `p` holds, in order. */
  function FilterMap<T, U>(s: seq<T>, p: T -> bool, f: T --> U): seq<U>
    requires forall i :: 0 <= i < |s| && p(s[i]) ==> f.requires(s[i])
    decreases |s|
  {
    if |s| == 0 then []
    else
      var n := |s| - 1;
      FilterMap(s[..n], p, f) + (if p(s[n]) then [f(s[n])] else [])
  }

  lemma FilterMapExtend<T, U>(s: seq<T>, x: T, p: T -> bool, f: T --> U)
    requires forall i :: 0 <= i < |s| && p(s[i]) ==> f.requires(s[i])
    requires p(x) ==> f.requires(x)
    ensures FilterMap(s + [x], p, f) == FilterMap(s, p, f) + (if p(x) then [f(x)] else [])
  {
    assert (s + [x])[..|s|] == s;
  }

  /** `FilterMap` yields one element per position at which `p` holds, the
      image of the element there, in the order of the positions. */
  lemma {:induction false} FilterMapAt<T, U>(s: seq<T>, p: T -> bool, f: T --> U)
    requires forall i :: 0 <= i < |s| && p(s[i]) ==> f.requires(s[i])
    ensures |FilterMap(s, p, f)| == |IndicesWhere(s, p)|
    ensures forall k :: 0 <= k < |IndicesWhere(s, p)| ==>
      FilterMap(s, p, f)[k] == f(s[IndicesWhere(s, p)[k]])
    decreases |s|
  {
    if |s| > 0 {
      var n := |s| - 1;
      var front := s[..n];
      FilterMapAt(front, p, f);
      var inS, inFront := IndicesWhere(s, p), IndicesWhere(front, p);
      assert inS == inFront + (if p(s[n]) then [n] else []);
      forall k | 0 <= k < |inS| ensures FilterMap(s, p, f)[k] == f(s[inS[k]]) {
        if k < |inFront| {
          assert inS[k] == inFront[k] && front[inFront[k]] == s[inFront[k]];
        }
      }
    }
  }

  /** `np.delete(s, drop, axis=0)`: the elements whose positions are not in
      `drop`, in their original order. */
  function DeleteAt<T>(s: seq<T>, drop: seq<nat>): seq<T>
    decreases |s|
  {
    if |s| == 0 then []
    else DeleteAt(s[..|s| - 1], drop) + (if |s| - 1 in drop then [] else [s[|s| - 1]])
  }

  /** Positions at or beyond the end do not matter to `DeleteAt`. */
  lemma {:induction false} DeleteAtIgnoresBeyond<T>(s: seq<T>, drop: seq<nat>, extra: seq<nat>)
    requires forall k :: 0 <= k < |extra| ==> extra[k] >= |s|
    ensures DeleteAt(s, drop + extra) == DeleteAt(s, drop)
    decreases |s|
  {
    if |s| > 0 {
      DeleteAtIgnoresBeyond(s[..|s| - 1], drop, extra);
    }
  }

  /** Classify-then-delete is filter-then-map: when `u` holds `f(s[i])` at
      every position where `p` holds, deleting from `u` the positions where
      `p` fails leaves `FilterMap(s, p, f)`. */
  lemma {:induction false} DeleteComplement<T, U>(s: seq<T>, u: seq<U>, p: T -> bool, q: T -> bool, f: T --> U)
    requires |u| == |s|
    requires forall i :: 0 <= i < |s| ==> q(s[i]) == !p(s[i])
    requires forall i :: 0 <= i < |s| && p(s[i]) ==> f.requires(s[i]) && u[i] == f(s[i])
    ensures DeleteAt(u, IndicesWhere(s, q)) == FilterMap(s, p, f)
    decreases |s|
  {
    if |s| > 0 {
      var n := |s| - 1;
      DeleteComplement(s[..n], u[..n], p, q, f);
      var tail := if q(s[n]) then [n] else [];
      assert IndicesWhere(s, q) == IndicesWhere(s[..n], q) + tail;
      DeleteAtIgnoresBeyond(u[..n], IndicesWhere(s[..n], q), tail);
      assert n !in IndicesWhere(s[..n], q);
    }
  }
}
