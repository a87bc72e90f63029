/** Three in-place sorts of an integer array. */
module Sorting {

  /** Only the elements in [lo, hi) may still be out of order; nothing has to move in or out. */
  ghost predicate SortedOutside(s: seq<int>, lo: int, hi: int) {
    forall i, j :: 0 <= i < j < |s| && (i < lo || hi <= j) ==> s[i] <= s[j]
  }

  ghost predicate Sorted(s: seq<int>) {
    forall i, j :: 0 <= i < j < |s| ==> s[i] <= s[j]
  }

  ghost predicate Permutation(s: seq<int>, t: seq<int>) {
    multiset(s) == multiset(t)
  }

  // exchanges two elements of the unsorted part
  method SwapInside(a: array<int>, i: nat, j: nat, ghost lo: int, ghost hi: int)
    requires lo <= i < j < hi <= a.Length && SortedOutside(a[..], lo, hi)
    modifies a
    ensures a[i] == old(a[j]) && a[j] == old(a[i])
    ensures forall k :: 0 <= k < a.Length && k != i && k != j ==> a[k] == old(a[k])
    ensures Permutation(a[..], old(a[..])) && SortedOutside(a[..], lo, hi)
  {
    a[i], a[j] := a[j], a[i];
  }

  // one pass from left to right: the maximum of a[lo..hi] ends at hi
  method PassRight(a: array<int>, lo: nat, hi: nat)
    requires lo <= hi < a.Length && SortedOutside(a[..], lo, hi + 1)
    modifies a
    ensures Permutation(a[..], old(a[..])) && SortedOutside(a[..], lo, hi)
  {
    var i := lo;
    while i < hi
      invariant lo <= i <= hi
      invariant forall k :: lo <= k < i ==> a[k] <= a[i]
      invariant SortedOutside(a[..], lo, hi + 1)
      invariant Permutation(a[..], old(a[..]))
    {
      if a[i] > a[i + 1] {
        SwapInside(a, i, i + 1, lo, hi + 1);
      }
      i := i + 1;
    }
  }

  // one pass from right to left: the minimum of a[lo..hi] ends at lo
  method PassLeft(a: array<int>, lo: nat, hi: int)
    requires lo <= hi + 1 < a.Length && SortedOutside(a[..], lo, hi + 1)
    modifies a
    ensures Permutation(a[..], old(a[..])) && SortedOutside(a[..], lo + 1, hi + 1)
  {
    var j := hi;
    while j >= lo
      invariant lo - 1 <= j <= hi
      invariant forall k :: j + 1 <= k <= hi + 1 ==> a[j + 1] <= a[k]
      invariant SortedOutside(a[..], lo, hi + 1)
      invariant Permutation(a[..], old(a[..]))
    {
      if a[j + 1] < a[j] {
        SwapInside(a, j, j + 1, lo, hi + 1);
      }
      j := j - 1;
    }
  }

  method SortBubble(a: array<int>)
    modifies a
    ensures Sorted(a[..]) && Permutation(a[..], old(a[..]))
  {
    var size := a.Length;
    var i := 0;
    while i < size - 1
      invariant 0 <= i && (size > 0 ==> i <= size - 1)
      invariant SortedOutside(a[..], 0, size - i)
      invariant Permutation(a[..], old(a[..]))
    {
      PassRight(a, 0, size - i - 1);
      i := i + 1;
    }
  }

  // cocktail sort
  method SortBubbleV2(a: array<int>)
    modifies a
    ensures Sorted(a[..]) && Permutation(a[..], old(a[..]))
  {
    var left, right := 0, a.Length - 1;
    while left < right
      invariant 0 <= left <= right + 1 <= a.Length
      invariant SortedOutside(a[..], left, right + 1)
      invariant Permutation(a[..], old(a[..]))
      decreases right - left
    {
      PassRight(a, left, right);
      right := right - 1;
      PassLeft(a, left, right);
      left := left + 1;
    }
  }

  method SortSelect(a: array<int>)
    modifies a
    ensures Sorted(a[..]) && Permutation(a[..], old(a[..]))
  {
    var i := 0;
    while i < a.Length
      invariant 0 <= i <= a.Length
      invariant SortedOutside(a[..], i, a.Length)
      invariant Permutation(a[..], old(a[..]))
    {
      var k := i;
      var j := i + 1;
      while j < a.Length
        invariant i <= k < j <= a.Length
        invariant forall m :: i <= m < j ==> a[k] <= a[m]
      {
        if a[j] < a[k] {
          k := j;
        }
        j := j + 1;
      }
      if k != i {
        SwapInside(a, i, k, i, a.Length);
      }
      i := i + 1;
    }
  }

  /** A multiset has only one sorted arrangement, so all three sorts give the same array. */
  lemma {:induction false} SortedIsUnique(s: seq<int>, t: seq<int>)
    requires Sorted(s) && Sorted(t) && Permutation(s, t)
    ensures s == t
  {
    SameLength(s, t);
    if s != [] {
      var n := |s| - 1;
      LastIsMax(s, t);
      LastIsMax(t, s);
      DropLast(s, t);
      SortedIsUnique(s[..n], t[..n]);
      assert s == s[..n] + [s[n]] && t == t[..n] + [t[n]];
    }
  }

  lemma SameLength(s: seq<int>, t: seq<int>)
    requires Permutation(s, t)
    ensures |s| == |t|
  {
    assert |multiset(s)| == |s| && |multiset(t)| == |t|;
  }

  lemma LastIsMax(s: seq<int>, t: seq<int>)
    requires Sorted(s) && Permutation(s, t) && t != [] && s != []
    ensures t[|t| - 1] <= s[|s| - 1]
  {
    assert t[|t| - 1] in multiset(t);
    assert t[|t| - 1] in s;
  }

  lemma DropLast(s: seq<int>, t: seq<int>)
    requires Permutation(s, t) && |s| == |t| > 0 && s[|s| - 1] == t[|t| - 1]
    ensures Permutation(s[..|s| - 1], t[..|t| - 1])
  {
    SplitLast(s);
    SplitLast(t);
  }

  lemma SplitLast(s: seq<int>)
    requires s != []
    ensures multiset(s[..|s| - 1]) == multiset(s) - multiset{s[|s| - 1]}
  {
    assert s == s[..|s| - 1] + [s[|s| - 1]];
    assert multiset(s) == multiset(s[..|s| - 1]) + multiset{s[|s| - 1]};
  }

  method AllThreeAgree(a: array<int>, b: array<int>, c: array<int>)
    requires a[..] == b[..] == c[..] && a != b && b != c && a != c
    modifies a, b, c
    ensures a[..] == b[..] == c[..] && Sorted(a[..]) && Permutation(a[..], old(a[..]))
  {
    SortBubble(a);
    SortBubbleV2(b);
    SortSelect(c);
    SortedIsUnique(a[..], b[..]);
    SortedIsUnique(b[..], c[..]);
  }
}
