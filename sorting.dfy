/** The two library sorts the preprocessor calls: numpy's `np.sort` on a
    column of strings and Python's `sorted` on a list of counts. Both are
    defined here as insertion sorts; `SortedStringsUnique` shows that a
    sorted permutation of a column is unique, so any correct sorting
    algorithm returns the same column. */
module Sorting {
  import opened PyStrings

  predicate SortedStrings(s: seq<string>)
  {
    forall i, j :: 0 <= i < j < |s| ==> LexLe(s[i], s[j])
  }

  /** Inserts `x` into a sorted column before its first element not below `x`. */
  function InsertString(x: string, s: seq<string>): (r: seq<string>)
    requires SortedStrings(s)
    ensures SortedStrings(r)
    ensures multiset(r) == multiset(s) + multiset{x}
    decreases |s|
  {
    if |s| == 0 then [x]
    else if LexLe(x, s[0]) then
      LexLeAbove(x, s);
      [x] + s
    else
      var tail := InsertString(x, s[1..]);
      LexLeTotal(x, s[0]);
      assert s == [s[0]] + s[1..];
      LexLeAbove(s[0], s[1..]);
      StringAbove(s[0], x, s[1..], tail);
      [s[0]] + tail
  }

  /** What is below the head of a sorted column is below all of it. */
  lemma LexLeAbove(x: string, s: seq<string>)
    requires SortedStrings(s)
    requires |s| > 0 ==> LexLe(x, s[0])
    ensures forall k :: 0 <= k < |s| ==> LexLe(x, s[k])
  {
    forall k | 0 < k < |s| ensures LexLe(x, s[k]) {
      LexLeTransitive(x, s[0], s[k]);
    }
  }

  /** A lower bound of `x` and of every element of `s` bounds every
      element of a permutation of `s` plus `x`. */
  lemma StringAbove(lo: string, x: string, s: seq<string>, t: seq<string>)
    requires LexLe(lo, x)
    requires forall k :: 0 <= k < |s| ==> LexLe(lo, s[k])
    requires multiset(t) == multiset(s) + multiset{x}
    ensures forall k :: 0 <= k < |t| ==> LexLe(lo, t[k])
  {
    forall k | 0 <= k < |t| ensures LexLe(lo, t[k]) {
      assert t[k] in multiset(t);
      if t[k] != x {
        assert t[k] in multiset(s);
      }
    }
  }

  /** `np.sort` on one column: an ascending permutation of the column. */
  function SortStrings(s: seq<string>): (r: seq<string>)
    ensures SortedStrings(r)
    ensures multiset(r) == multiset(s)
    ensures |r| == |s|
    decreases |s|
  {
    if |s| == 0 then []
    else
      assert s == [s[0]] + s[1..];
      var r := InsertString(s[0], SortStrings(s[1..]));
      assert |r| == |multiset(r)|;
      r
  }

  /** Two sorted columns that are permutations of each other are equal. */
  lemma {:induction false} SortedStringsUnique(a: seq<string>, b: seq<string>)
    requires SortedStrings(a) && SortedStrings(b)
    requires multiset(a) == multiset(b)
    ensures a == b
    decreases |a|
  {
    SameLength(a, b);
    if |a| > 0 {
      SortedStringsHeads(a, b);
      MultisetTails(a, b);
      assert SortedStrings(a[1..]) && SortedStrings(b[1..]);
      SortedStringsUnique(a[1..], b[1..]);
      assert a == [a[0]] + a[1..] && b == [b[0]] + b[1..];
    }
  }

  /** Two sorted columns that are permutations of each other start alike. */
  lemma SortedStringsHeads(a: seq<string>, b: seq<string>)
    requires SortedStrings(a) && SortedStrings(b)
    requires multiset(a) == multiset(b) && |a| > 0 && |b| > 0
    ensures a[0] == b[0]
  {
    assert a[0] in multiset(b);
    var j :| 0 <= j < |b| && b[j] == a[0];
    assert b[0] in multiset(a);
    var i :| 0 <= i < |a| && a[i] == b[0];
    if j > 0 { assert LexLe(b[0], b[j]); } else { LexLeReflexive(b[0]); }
    if i > 0 { assert LexLe(a[0], a[i]); } else { LexLeReflexive(a[0]); }
    LexLeAntisymmetric(a[0], b[0]);
  }

  /** Permutations of each other have the same length. */
  lemma SameLength<T>(a: seq<T>, b: seq<T>)
    requires multiset(a) == multiset(b)
    ensures |a| == |b|
  {
    assert |a| == |multiset(a)| == |multiset(b)| == |b|;
  }

  /** Removing a common head from two permutations of each other leaves
      permutations of each other. */
  lemma MultisetTails<T>(a: seq<T>, b: seq<T>)
    requires multiset(a) == multiset(b) && |a| > 0 && |b| > 0 && a[0] == b[0]
    ensures multiset(a[1..]) == multiset(b[1..])
  {
    assert a == [a[0]] + a[1..];
    assert b == [b[0]] + b[1..];
    assert multiset(a[1..]) == multiset(a) - multiset{a[0]};
    assert multiset(b[1..]) == multiset(b) - multiset{b[0]};
  }

  predicate SortedInts(s: seq<int>)
  {
    forall i, j :: 0 <= i < j < |s| ==> s[i] <= s[j]
  }

  function InsertInt(x: int, s: seq<int>): (r: seq<int>)
    requires SortedInts(s)
    ensures SortedInts(r)
    ensures multiset(r) == multiset(s) + multiset{x}
    decreases |s|
  {
    if |s| == 0 then [x]
    else if x <= s[0] then [x] + s
    else
      var tail := InsertInt(x, s[1..]);
      assert s == [s[0]] + s[1..];
      IntAbove(s[0], x, s[1..], tail);
      [s[0]] + tail
  }

  /** A lower bound of `x` and of every element of `s` bounds every
      element of a permutation of `s` plus `x`. */
  lemma IntAbove(lo: int, x: int, s: seq<int>, t: seq<int>)
    requires lo <= x
    requires forall k :: 0 <= k < |s| ==> lo <= s[k]
    requires multiset(t) == multiset(s) + multiset{x}
    ensures forall k :: 0 <= k < |t| ==> lo <= t[k]
  {
    forall k | 0 <= k < |t| ensures lo <= t[k] {
      assert t[k] in multiset(t);
      if t[k] != x {
        assert t[k] in multiset(s);
      }
    }
  }

  /** Two sorted lists of integers that are permutations of each other
      are equal. */
  lemma {:induction false} SortedIntsUnique(a: seq<int>, b: seq<int>)
    requires SortedInts(a) && SortedInts(b)
    requires multiset(a) == multiset(b)
    ensures a == b
    decreases |a|
  {
    SameLength(a, b);
    if |a| > 0 {
      assert a[0] in multiset(b) && b[0] in multiset(a);
      assert a[0] == b[0];
      MultisetTails(a, b);
      SortedIntsUnique(a[1..], b[1..]);
      assert a == [a[0]] + a[1..] && b == [b[0]] + b[1..];
    }
  }

  /** Python's `sorted` on a list of integers. */
  function SortInts(s: seq<int>): (r: seq<int>)
    ensures SortedInts(r)
    ensures multiset(r) == multiset(s)
    ensures |r| == |s|
    decreases |s|
  {
    if |s| == 0 then []
    else
      assert s == [s[0]] + s[1..];
      var r := InsertInt(s[0], SortInts(s[1..]));
      assert |r| == |multiset(r)|;
      r
  }
}
