/** The in-place integer sort of arrays: quicksort that recurses into its smaller side, with insertion
    sort for short stretches. */
module Sorting {
  import opened Widths

  const SHORT := 16

  // ---------------------------------------------------------------- stretches and permutations

  predicate Sorted(s: seq<int>, lo: int, hi: int)
    requires 0 <= lo <= hi <= |s|
  {
    forall k, m :: lo <= k < m < hi ==> s[k] <= s[m]
  }

  /** t is s with the stretch from lo up to hi rearranged. */
  predicate Permuted(s: seq<int>, t: seq<int>, lo: int, hi: int) {
    0 <= lo <= hi <= |s| == |t| && s[..lo] == t[..lo] && s[hi..] == t[hi..] &&
    multiset(s[lo..hi]) == multiset(t[lo..hi])
  }

  lemma PermutedTwice(s: seq<int>, t: seq<int>, u: seq<int>, lo: int, hi: int)
    requires Permuted(s, t, lo, hi) && Permuted(t, u, lo, hi)
    ensures Permuted(s, u, lo, hi)
  {
  }

  lemma PermutedSame(s: seq<int>, lo: int, hi: int)
    requires 0 <= lo <= hi <= |s|
    ensures Permuted(s, s, lo, hi)
  {
  }

  lemma PermutedWider(s: seq<int>, t: seq<int>, lo: int, hi: int, wideLo: int, wideHi: int)
    requires Permuted(s, t, lo, hi) && 0 <= wideLo <= lo && hi <= wideHi <= |s|
    ensures Permuted(s, t, wideLo, wideHi)
  {
    assert s[wideLo..wideHi] == s[wideLo..lo] + s[lo..hi] + s[hi..wideHi];
    assert t[wideLo..wideHi] == t[wideLo..lo] + t[lo..hi] + t[hi..wideHi];
    assert s[wideLo..lo] == s[..lo][wideLo..] && t[wideLo..lo] == t[..lo][wideLo..];
    assert s[hi..wideHi] == s[hi..][..wideHi - hi] && t[hi..wideHi] == t[hi..][..wideHi - hi];
    assert s[..wideLo] == s[..lo][..wideLo] && t[..wideLo] == t[..lo][..wideLo];
    assert s[wideHi..] == s[hi..][wideHi - hi..] && t[wideHi..] == t[hi..][wideHi - hi..];
  }

  lemma SwapPermutes(s: seq<int>, i: int, j: int, lo: int, hi: int)
    requires 0 <= lo <= i < hi <= |s| && lo <= j < hi
    ensures Permuted(s, s[i := s[j]][j := s[i]], lo, hi)
  {
    var t := s[i := s[j]][j := s[i]];
    assert t[lo..hi] == s[lo..hi][i - lo := s[j]][j - lo := s[i]];
  }

  /** Every value of the new stretch was in the old one. */
  lemma PermutedFrom(s: seq<int>, t: seq<int>, lo: int, hi: int, m: int) returns (k: int)
    requires Permuted(s, t, lo, hi) && lo <= m < hi
    ensures lo <= k < hi && s[k] == t[m]
  {
    assert t[m] == t[lo..hi][m - lo];
    assert t[m] in multiset(t[lo..hi]);
    assert t[m] in s[lo..hi];
    var i :| 0 <= i < hi - lo && s[lo..hi][i] == t[m];
    k := lo + i;
  }

  lemma PermutedOutside(s: seq<int>, t: seq<int>, lo: int, hi: int)
    requires Permuted(s, t, lo, hi)
    ensures forall k :: 0 <= k < |s| && (k < lo || k >= hi) ==> s[k] == t[k]
  {
    forall k | 0 <= k < |s| && (k < lo || k >= hi) ensures s[k] == t[k] {
      if k < lo { assert s[k] == s[..lo][k] && t[k] == t[..lo][k]; }
          else { assert s[k] == s[hi..][k - hi] && t[k] == t[hi..][k - hi]; }
    }
  }

  lemma ShiftNothing(s: seq<int>, t: seq<int>, p: int)
    requires 0 <= p < |s| == |t| && t[p] == s[p] && forall k :: 0 <= k < |s| && (k < p || k > p) ==> t[k] == s[k]
    ensures s == t
  {
  }

  lemma ShiftStep(s: seq<int>, t: seq<int>, u: seq<int>, p: int, q: int)
    requires 0 <= p < q < |s| == |t| && t[p] == s[q] && u == s[q := s[q - 1]][q - 1 := s[q]]
    requires (forall k :: p < k <= q ==> t[k] == s[k - 1]) && forall k :: 0 <= k < |s| && (k < p || k > q) ==>
               t[k] == s[k]
    ensures |u| == |s| && t[p] == u[q - 1]
    ensures (forall k :: p < k <= q - 1 ==> t[k] == u[k - 1]) && forall k :: 0 <= k < |s| && (k < p || k > q - 1) ==>
              t[k] == u[k]
  {
    assert t[q] == s[q - 1];
  }

  /** Moving the value at q down to p, and those between up by one. */
  lemma {:induction false} ShiftPermutes(s: seq<int>, t: seq<int>, p: int, q: int, lo: int, hi: int)
    requires 0 <= lo <= p <= q < hi <= |s| == |t| && t[p] == s[q]
    requires (forall k :: p < k <= q ==> t[k] == s[k - 1]) && forall k :: 0 <= k < |s| && (k < p || k > q) ==>
               t[k] == s[k]
    ensures Permuted(s, t, lo, hi)
    decreases q
  {
    hide Permuted;
    if p == q {
      ShiftNothing(s, t, p);
      PermutedSame(s, lo, hi);
    } else {
      var u := s[q := s[q - 1]][q - 1 := s[q]];
      SwapPermutes(s, q, q - 1, lo, hi);
      ShiftStep(s, t, u, p, q);
      ShiftPermutes(u, t, p, q - 1, lo, hi);
      PermutedTwice(s, u, t, lo, hi);
    }
  }

  // ---------------------------------------------------------------- insertion sort

  lemma ShiftSorts(s: seq<int>, t: seq<int>, lo: int, p: int, q: int)
    requires 0 <= lo <= p <= q < |s| == |t| && Sorted(s, lo, q) && t[p] == s[q]
    requires (forall k :: p < k <= q ==> t[k] == s[k - 1] && t[k] > s[q]) && forall k ::
             0 <= k < |s| && (k < p || k > q) ==> t[k] == s[k]
    requires p > lo ==> s[p - 1] <= s[q]
    ensures Sorted(t, lo, q + 1)
  {
    forall k, m | lo <= k < m < q + 1 ensures t[k] <= t[m] {
      if k < p { assert p > lo && s[k] <= s[p - 1]; }
    }
  }

  /** Insert the i-th value of the stretch that starts at from among those before it. */
  method InsertOne(a: array<int>, from: nat, i: nat)
    requires i >= 1 && from + i < a.Length && Sorted(a[..], from, from + i)
    modifies a
    ensures Sorted(a[..], from, from + i + 1) && Permuted(old(a[..]), a[..], from, from + i + 1)
  {
    hide Permuted, Sorted;
    ghost var s := a[..];
    var key := a[from + i];
    var j: int := i - 1;
    while j >= 0 && a[from + j] > key
      invariant -1 <= j < i
      invariant forall k :: 0 <= k < a.Length && (k <= from + j || k > from + i) ==> a[k] == s[k]
      invariant forall k :: from + j + 1 < k <= from + i ==> a[k] == s[k - 1] && a[k] > key
    {
      a[from + j + 1] := a[from + j];
      j := j - 1;
    }
    a[from + j + 1] := key;
    ShiftPermutes(s, a[..], from + j + 1, from + i, from, from + i + 1);
    ShiftSorts(s, a[..], from, from + j + 1, from + i);
  }

  lemma SortedShort(s: seq<int>, lo: int, hi: int)
    requires 0 <= lo <= hi <= |s| && hi - lo <= 1
    ensures Sorted(s, lo, hi)
  {
  }

  method InsertionSort(a: array<int>, from: nat, n: nat)
    requires from + n <= a.Length
    modifies a
    ensures Sorted(a[..], from, from + n) && Permuted(old(a[..]), a[..], from, from + n)
  {
    hide Permuted, Sorted;
    ghost var s := a[..];
    PermutedSame(s, from, from + n);
    SortedShort(s, from, from);
    if n == 0 {
      return;
    }
    SortedShort(s, from, from + 1);
    var i := 1;
    while i < n
      invariant 1 <= i <= n && Permuted(s, a[..], from, from + n) && Sorted(a[..], from, from + i)
    {
      ghost var t := a[..];
      InsertOne(a, from, i);
      PermutedWider(t, a[..], from, from + i + 1, from, from + n);
      PermutedTwice(s, t, a[..], from, from + n);
      i := i + 1;
    }
  }

  // ---------------------------------------------------------------- partition

  method Swap(a: array<int>, i: nat, j: nat, ghost lo: nat, ghost hi: nat)
    requires lo <= i < hi <= a.Length && lo <= j < hi
    modifies a
    ensures a[i] == old(a[j]) && a[j] == old(a[i]) && forall k :: 0 <= k < a.Length && k != i && k != j ==>
              a[k] == old(a[k])
    ensures Permuted(old(a[..]), a[..], lo, hi)
  {
    hide Permuted;
    SwapPermutes(a[..], i, j, lo, hi);
    a[i], a[j] := a[j], a[i];
  }

  /** Two values are exchanged if the first is below the second. */
  ghost predicate Exchanged(s: seq<int>, r: seq<int>, i: nat, j: nat) {
    i < |s| == |r| && j < |s| && r == if s[i] < s[j] then s[i := s[j]][j := s[i]] else s
  }

  method SwapIfBelow(a: array<int>, i: nat, j: nat, ghost s: seq<int>, ghost lo: nat, ghost hi: nat)
    requires lo <= i < hi <= a.Length && lo <= j < hi && Permuted(s, a[..], lo, hi)
    modifies a
    ensures Permuted(s, a[..], lo, hi) && Exchanged(old(a[..]), a[..], i, j)
  {
    hide Permuted;
    if a[i] < a[j] {
      ghost var t := a[..];
      Swap(a, i, j, lo, hi);
      PermutedTwice(s, t, a[..], lo, hi);
    }
  }

  /** Of the values in three places the median is in the last, and nothing else has changed. */
  ghost predicate MedianAt(s: seq<int>, r: seq<int>, lo: nat, mid: nat, hi: nat) {
    lo < |s| == |r| && mid < |s| && hi < |s| &&
    r[lo] <= r[hi] <= r[mid] && multiset{r[lo], r[mid], r[hi]} == multiset{s[lo], s[mid], s[hi]} &&
    forall k :: 0 <= k < |s| && k != lo && k != mid && k != hi ==> r[k] == s[k]
  }

  lemma ExchangedAt(s: seq<int>, r: seq<int>, i: nat, j: nat)
    requires Exchanged(s, r, i, j)
    ensures i < |s| == |r| && j < |s| && r[i] == (if s[i] < s[j] then s[j] else s[i]) &&
            r[j] == if s[i] < s[j] then s[i] else s[j]
    ensures forall k :: 0 <= k < |s| && k != i && k != j ==> r[k] == s[k]
  {
  }

  lemma MedianIs(s: seq<int>, t: seq<int>, u: seq<int>, r: seq<int>, lo: nat, mid: nat, hi: nat)
    requires lo < mid < hi && Exchanged(s, t, mid, lo) && Exchanged(t, u, hi, lo) && Exchanged(u, r, mid, hi)
    ensures MedianAt(s, r, lo, mid, hi)
  {
    ExchangedAt(s, t, mid, lo);
    ExchangedAt(t, u, hi, lo);
    ExchangedAt(u, r, mid, hi);
    hide Exchanged;
    var x, y, z := s[lo], s[mid], s[hi];
    assert t[lo] == (if y < x then y else x) && t[mid] == (if y < x then x else y) && t[hi] == z;
    assert u[lo] == (if z < t[lo] then z else t[lo]) && u[mid] == t[mid] && u[hi] == if z < t[lo] then t[lo] else z;
    MedianOf(x, y, z);
  }

  lemma MedianOf(x: int, y: int, z: int)
    ensures var (a, b) := if y < x then (y, x) else (x, y);
            var (l, c) := if z < a then (z, a) else (a, z);
            var (m, h) := if b < c then (b, c) else (c, b);
            l <= m <= h && multiset{l, h, m} == multiset{x, y, z}
  {
  }

  function Middle(lo: nat, hi: nat): (mid: nat)
    requires lo < hi
    ensures lo <= mid < hi && (lo + 1 < hi ==> lo < mid)
  {
    lo + (hi - lo) / 2
  }

  /** Three values put in order, the median in the last place. */
  method OrderThree(a: array<int>, lo: nat, mid: nat, hi: nat) returns (ghost t: seq<int>, ghost u: seq<int>)
    requires lo <= mid < hi < a.Length
    modifies a
    ensures Permuted(old(a[..]), a[..], lo, hi + 1)
    ensures Exchanged(old(a[..]), t, mid, lo) && Exchanged(t, u, hi, lo) && Exchanged(u, a[..], mid, hi)
  {
    ghost var s := a[..];
    PermutedSame(s, lo, hi + 1);
    hide Permuted, Exchanged;
    SwapIfBelow(a, mid, lo, s, lo, hi + 1);
    t := a[..];
    SwapIfBelow(a, hi, lo, s, lo, hi + 1);
    u := a[..];
    SwapIfBelow(a, mid, hi, s, lo, hi + 1);
  }

  /** The median of the first, middle and last value goes last, and only those three change places. */
  method MedianLast(a: array<int>, lo: nat, hi: nat)
    requires lo < hi < a.Length
    modifies a
    ensures Permuted(old(a[..]), a[..], lo, hi + 1)
    ensures lo + 1 < hi ==> MedianAt(old(a[..]), a[..], lo, Middle(lo, hi), hi)
  {
    hide Permuted, Exchanged, MedianAt, Middle;
    ghost var t, u;
    t, u := OrderThree(a, lo, Middle(lo, hi), hi);
    if lo + 1 < hi { MedianIs(old(a[..]), t, u, a[..], lo, Middle(lo, hi), hi); }
  }

  /** Nothing left of i is above the value at i, and nothing right of it below. */
  predicate Split(s: seq<int>, lo: int, i: int, hi: int)
    requires 0 <= lo <= i < hi <= |s|
  {
    (forall k :: lo <= k < i ==> s[k] <= s[i]) && forall k :: i < k < hi ==> s[k] >= s[i]
  }

  /** Partition the stretch from lo to hi inclusive around its last value. The left scan needs no bound:
      it stops at the pivot itself. */
  method Partition(a: array<int>, lo: nat, hi: nat) returns (i: nat)
    requires lo < hi < a.Length && forall k :: lo <= k <= hi ==> Fits(a[k])
    modifies a
    ensures lo <= i <= hi && Split(a[..], lo, i, hi + 1) && Permuted(old(a[..]), a[..], lo, hi + 1)
  {
    hide Permuted, Narrow, Fits, Halves, Split;
    ghost var s := a[..];
    PermutedSame(s, lo, hi + 1);
    NarrowExact(a[hi]);
    var pivot := Narrow(a[hi]);
    var left: int, right: int := lo - 1, hi;
    HalvesStart(s, lo, hi);
    while true
      invariant lo - 1 <= left < right <= hi && (right < hi ==> left >= lo) && a[hi] == pivot
      invariant Permuted(s, a[..], lo, hi + 1) && Halves(a[..], lo, left, right, hi)
      decreases right - left
    {
      var done;
      ghost var t := a[..];
      done, left, right := Round(a, lo, left, right, hi, pivot);
      PermutedTwice(s, t, a[..], lo, hi + 1);
      if done {
        return left;
      }
    }
  }

  /** Scan from both sides and exchange what stopped the scans, or finish by placing the pivot. */
  method Round(a: array<int>, lo: nat, from: int, to: int, hi: nat, pivot: int)
    returns (done: bool, left: nat, right: nat)
    requires lo - 1 <= from < to <= hi < a.Length && (to < hi ==> from >= lo) && a[hi] == pivot && lo < hi &&
             Halves(a[..], lo, from, to, hi)
    modifies a
    ensures Permuted(old(a[..]), a[..], lo, hi + 1)
    ensures done ==> lo <= left <= hi && Split(a[..], lo, left, hi + 1)
    ensures !done ==> from < left < right < to && left >= lo && a[hi] == pivot && Halves(a[..], lo, left, right, hi)
  {
    hide Permuted, Halves, Split;
    ghost var t := a[..];
    left := ScanUp(a, from + 1, hi, pivot);
    right := ScanDown(a, lo, to - 1, pivot);
    done := left >= right;
    if done {
      Swap(a, left, hi, lo, hi + 1);
      HalvesEnd(t, a[..], lo, from, to, left, right, hi);
    } else {
      Swap(a, left, right, lo, hi + 1);
      HalvesNext(t, a[..], lo, from, to, left, right, hi);
    }
  }

  /** The scans so far left nothing above the last value up to left, and nothing below it from right. */
  predicate Halves(s: seq<int>, lo: int, left: int, right: int, hi: int) {
    0 <= lo && lo - 1 <= left < right <= hi < |s| &&
    (forall k :: lo <= k <= left ==> s[k] <= s[hi]) && forall k :: right <= k < hi ==> s[k] >= s[hi]
  }

  lemma HalvesStart(s: seq<int>, lo: int, hi: int)
    requires 0 <= lo < hi < |s|
    ensures Halves(s, lo, lo - 1, hi, hi)
  {
  }

  lemma HalvesNext(s: seq<int>, t: seq<int>, lo: int, from: int, to: int, left: int, right: int, hi: int)
    requires Halves(s, lo, from, to, hi) && from < left < right < to && |t| == |s|
    requires (forall k :: from < k < left ==> s[k] < s[hi]) && s[left] >= s[hi]
    requires (forall k :: right < k < to ==> s[k] > s[hi]) && (right > lo ==> s[right] <= s[hi])
    requires t[left] == s[right] && t[right] == s[left] && forall k :: 0 <= k < |s| && k != left && k != right ==>
               t[k] == s[k]
    ensures Halves(t, lo, left, right, hi)
  {
  }

  lemma HalvesEnd(s: seq<int>, t: seq<int>, lo: int, from: int, to: int, left: int, right: int, hi: int)
    requires Halves(s, lo, from, to, hi) && from < left <= hi && lo <= right < to && left >= right && |t| == |s|
    requires (forall k :: from < k < left ==> s[k] < s[hi]) && s[left] >= s[hi]
    requires forall k :: right < k < to ==> s[k] > s[hi]
    requires t[left] == s[hi] && t[hi] == s[left] && forall k :: 0 <= k < |s| && k != left && k != hi ==> t[k] == s[k]
    ensures lo <= left && Split(t, lo, left, hi + 1)
  {
  }

  /** Where the left scan from i stops: the first value not below the pivot, if there is one. */
  function ScanRight(s: seq<int>, i: nat, pivot: int): (j: nat)
    requires i <= |s|
    ensures i <= j <= |s|
    decreases |s| - i
  {
    if i < |s| && s[i] < pivot then ScanRight(s, i + 1, pivot) else i
  }

  /** Where the right scan from j stops. */
  function ScanLeft(s: seq<int>, lo: nat, j: nat, pivot: int): (k: nat)
    requires lo <= j < |s|
    ensures lo <= k <= j
  {
    if j > lo && s[j] > pivot then ScanLeft(s, lo, j - 1, pivot) else j
  }

  /** The left scan: it has no bound of its own. */
  method ScanUp(a: array<int>, from: nat, ghost hi: nat, pivot: int) returns (i: nat)
    requires from <= hi < a.Length && a[hi] == pivot
    ensures from <= i <= hi && a[i] >= pivot && forall k :: from <= k < i ==> a[k] < pivot
    ensures i == ScanRight(a[..], from, pivot)
  {
    i := from;
    while a[i] < pivot
      invariant from <= i <= hi && forall k :: from <= k < i ==> a[k] < pivot
      invariant ScanRight(a[..], i, pivot) == ScanRight(a[..], from, pivot)
      decreases hi - i
    {
      i := i + 1;
    }
  }

  /** The right scan stops at lo. */
  method ScanDown(a: array<int>, lo: nat, from: nat, pivot: int) returns (j: nat)
    requires lo <= from < a.Length
    ensures lo <= j <= from && (j > lo ==> a[j] <= pivot) && forall k :: j < k <= from ==> a[k] > pivot
    ensures j == ScanLeft(a[..], lo, from, pivot)
  {
    j := from;
    while j > lo && a[j] > pivot
      invariant lo <= j <= from && forall k :: j < k <= from ==> a[k] > pivot
      invariant ScanLeft(a[..], lo, j, pivot) == ScanLeft(a[..], lo, from, pivot)
    {
      j := j - 1;
    }
  }

  // ---------------------------------------------------------------- quicksort

  function Pow2(d: nat): (p: nat)
    ensures p > 0
  {
    if d == 0 then 1 else 2 * Pow2(d - 1)
  }

  predicate AllFit(s: seq<int>, lo: int, hi: int)
    requires 0 <= lo <= hi <= |s|
  {
    forall k :: lo <= k < hi ==> Fits(s[k])
  }

  /** Only the stretch from l to h inclusive is still out of order. */
  predicate Outer(s: seq<int>, lo: int, l: int, h: int, hi: int) {
    0 <= lo <= l <= h + 1 <= hi + 1 <= |s| && forall k, m :: lo <= k < m <= hi && (k < l || m > h) ==> s[k] <= s[m]
  }

  lemma FitKept(s: seq<int>, t: seq<int>, lo: int, hi: int)
    requires Permuted(s, t, lo, hi) && AllFit(s, lo, hi)
    ensures AllFit(t, lo, hi)
  {
    forall m | lo <= m < hi ensures Fits(t[m]) {
      var k := PermutedFrom(s, t, lo, hi, m);
    }
  }

  lemma OuterKept(s: seq<int>, t: seq<int>, lo: int, l: int, h: int, hi: int)
    requires Outer(s, lo, l, h, hi) && Permuted(s, t, l, h + 1)
    ensures Outer(t, lo, l, h, hi)
  {
    hide Permuted;
    PermutedOutside(s, t, l, h + 1);
    PermutedLength(s, t, l, h + 1);
    forall k, m | lo <= k < m <= hi && (k < l || m > h) ensures t[k] <= t[m] {
      var k0, m0 := k, m;
      if l <= k <= h { k0 := PermutedFrom(s, t, l, h + 1, k); }
      if l <= m <= h { m0 := PermutedFrom(s, t, l, h + 1, m); }
      assert s[k0] <= s[m0];
    }
  }

  lemma PermutedLength(s: seq<int>, t: seq<int>, lo: int, hi: int)
    requires Permuted(s, t, lo, hi)
    ensures 0 <= lo <= hi <= |s| == |t|
  {
  }

  /** Rearranging one side of a split keeps it. */
  lemma SplitKept(s: seq<int>, t: seq<int>, lo: int, i: int, hi: int, from: int, to: int)
    requires 0 <= lo <= i < hi <= |s| && Split(s, lo, i, hi) && Permuted(s, t, from, to) && |t| == |s|
    requires (from == lo && to == i) || (from == i + 1 && to == hi)
    ensures Split(t, lo, i, hi)
  {
    hide Permuted;
    PermutedOutside(s, t, from, to);
    forall k | from <= k < to ensures if from == lo && to == i then t[k] <= t[i] else t[k] >= t[i] {
      var k0 := PermutedFrom(s, t, from, to, k);
    }
  }

  lemma OuterLeft(s: seq<int>, lo: int, l: int, i: int, h: int, hi: int)
    requires Outer(s, lo, l, h, hi) && l <= i <= h && Split(s, l, i, h + 1) && Sorted(s, l, i)
    ensures Outer(s, lo, i + 1, h, hi)
  {
  }

  lemma OuterRight(s: seq<int>, lo: int, l: int, i: int, h: int, hi: int)
    requires Outer(s, lo, l, h, hi) && l <= i <= h && Split(s, l, i, h + 1) && Sorted(s, i + 1, h + 1)
    ensures Outer(s, lo, l, i - 1, hi)
  {
  }

  lemma OuterEnds(s: seq<int>, lo: int, l: int, h: int, hi: int)
    requires Outer(s, lo, l, h, hi) && Sorted(s, l, h + 1)
    ensures Sorted(s, lo, hi + 1)
  {
  }

  lemma OuterStarts(s: seq<int>, lo: int, hi: int)
    requires 0 <= lo <= hi + 1 <= |s|
    ensures Outer(s, lo, lo, hi, hi)
  {
  }

  /** The smaller side has at most half of the values. */
  lemma HalfFits(l: int, i: int, h: int, depth: nat)
    requires l <= i <= h && h - l + 1 <= Pow2(depth) && h - l >= SHORT
    ensures depth > 0
    ensures i - l < h - i ==> i - l <= Pow2(depth - 1)
    ensures i - l >= h - i ==> h - i <= Pow2(depth - 1)
  {
  }

  lemma SubFit(s: seq<int>, lo: int, hi: int, l: int, h: int)
    requires 0 <= lo <= l <= h <= hi <= |s| && AllFit(s, lo, hi)
    ensures AllFit(s, l, h) && forall k :: l <= k <= h - 1 ==> Fits(s[k])
  {
  }

  /** Sort the stretch from lo to hi inclusive. The recursion is into at most half of the stretch, so its
      depth is at most the logarithm of the length. */
  method QuickSort(a: array<int>, lo: nat, hi: int, ghost depth: nat)
    requires lo <= hi + 1 <= a.Length && hi - lo + 1 <= Pow2(depth) && (hi - lo < SHORT || AllFit(a[..], lo, hi + 1))
    modifies a
    ensures Sorted(a[..], lo, hi + 1) && Permuted(old(a[..]), a[..], lo, hi + 1)
    decreases depth
  {
    hide Permuted, Sorted, AllFit, Outer, Split, Pow2;
    ghost var s := a[..];
    PermutedSame(s, lo, hi + 1);
    OuterStarts(s, lo, hi);
    var l, h := lo, hi;
    while l < h
      invariant lo <= l <= h + 1 <= hi + 1 && Outer(a[..], lo, l, h, hi)
      invariant Permuted(s, a[..], lo, hi + 1) && (hi - lo < SHORT || AllFit(a[..], lo, hi + 1))
      decreases h - l
    {
      ghost var t := a[..];
      if h - l < SHORT {
        InsertionSort(a, l, h - l + 1);
        Rearranged(s, t, a[..], lo, l, h, hi);
        OuterEnds(a[..], lo, l, h, hi);
        return;
      }
      l, h := QuickStep(a, lo, l, h, hi, depth);
      PermutedTwice(s, t, a[..], lo, hi + 1);
    }
    SortedShort(a[..], l, h + 1);
    OuterEnds(a[..], lo, l, h, hi);
  }

  /** Partition, sort the smaller side, and go on with the larger. */
  method QuickStep(a: array<int>, ghost lo: nat, l: nat, h: int, ghost hi: int, ghost depth: nat)
    returns (newL: nat, newH: int)
    requires lo <= l < h <= hi < a.Length && h - l >= SHORT && hi - lo + 1 <= Pow2(depth)
    requires Outer(a[..], lo, l, h, hi) && AllFit(a[..], lo, hi + 1)
    modifies a
    ensures lo <= l <= newL <= newH + 1 <= h + 1 && newH - newL < h - l
    ensures Outer(a[..], lo, newL, newH, hi) && AllFit(a[..], lo, hi + 1) && Permuted(old(a[..]), a[..], lo, hi + 1)
    decreases depth, 0
  {
    hide Permuted, Sorted, AllFit, Outer, Split, Pow2;
    ghost var s := a[..];
    var i := Divide(a, lo, l, h, hi);
    HalfFits(l, i, h, depth);
    ghost var u := a[..];
    SubFit(u, lo, hi + 1, l, i);
    SubFit(u, lo, hi + 1, i + 1, h + 1);
    if i - l < h - i {
      QuickSort(a, l, i - 1, depth - 1);
      LeftSorted(s, u, a[..], lo, l, i, h, hi);
      newL, newH := i + 1, h;
    } else {
      QuickSort(a, i + 1, h, depth - 1);
      RightSorted(s, u, a[..], lo, l, i, h, hi);
      newL, newH := l, i - 1;
    }
  }

  /** Choose a pivot and partition. */
  method Divide(a: array<int>, ghost lo: nat, l: nat, h: int, ghost hi: int) returns (i: nat)
    requires lo <= l < h <= hi < a.Length && Outer(a[..], lo, l, h, hi) && AllFit(a[..], lo, hi + 1)
    modifies a
    ensures l <= i <= h && Split(a[..], l, i, h + 1)
    ensures Outer(a[..], lo, l, h, hi) && AllFit(a[..], lo, hi + 1) && Permuted(old(a[..]), a[..], lo, hi + 1)
  {
    hide Permuted, Sorted, AllFit, Outer, Split;
    ghost var s := a[..];
    MedianLast(a, l, h);
    Widened(s, a[..], lo, l, h, hi);
    ghost var t := a[..];
    SubFit(t, lo, hi + 1, l, h + 1);
    i := Partition(a, l, h);
    Widened(t, a[..], lo, l, h, hi);
    PermutedTwice(s, t, a[..], lo, hi + 1);
  }

  lemma LeftSorted(s: seq<int>, u: seq<int>, v: seq<int>, lo: int, l: int, i: int, h: int, hi: int)
    requires Outer(u, lo, l, h, hi) && AllFit(u, lo, hi + 1) && Permuted(s, u, lo, hi + 1) && l <= i <= h &&
             Split(u, l, i, h + 1)
    requires Permuted(u, v, l, i) && |v| == |u| && Sorted(v, l, i)
    ensures Outer(v, lo, i + 1, h, hi) && AllFit(v, lo, hi + 1) && Permuted(s, v, lo, hi + 1)
  {
    hide Permuted, AllFit, Split, Sorted;
    SplitKept(u, v, l, i, h + 1, l, i);
    PermutedWider(u, v, l, i, l, h + 1);
    Widened(u, v, lo, l, h, hi);
    OuterLeft(v, lo, l, i, h, hi);
    PermutedTwice(s, u, v, lo, hi + 1);
  }

  lemma RightSorted(s: seq<int>, u: seq<int>, v: seq<int>, lo: int, l: int, i: int, h: int, hi: int)
    requires Outer(u, lo, l, h, hi) && AllFit(u, lo, hi + 1) && Permuted(s, u, lo, hi + 1) && l <= i <= h &&
             Split(u, l, i, h + 1)
    requires Permuted(u, v, i + 1, h + 1) && |v| == |u| && Sorted(v, i + 1, h + 1)
    ensures Outer(v, lo, l, i - 1, hi) && AllFit(v, lo, hi + 1) && Permuted(s, v, lo, hi + 1)
  {
    hide Permuted, AllFit, Split, Sorted;
    SplitKept(u, v, l, i, h + 1, i + 1, h + 1);
    PermutedWider(u, v, i + 1, h + 1, l, h + 1);
    Widened(u, v, lo, l, h, hi);
    OuterRight(v, lo, l, i, h, hi);
    PermutedTwice(s, u, v, lo, hi + 1);
  }

  /** Rearranging the stretch that is out of order keeps everything said about the whole. */
  lemma Widened(s: seq<int>, t: seq<int>, lo: int, l: int, h: int, hi: int)
    requires Permuted(s, t, l, h + 1) && Outer(s, lo, l, h, hi) && hi < |s| && AllFit(s, lo, hi + 1)
    ensures |t| == |s| && Outer(t, lo, l, h, hi) && Permuted(s, t, lo, hi + 1) && AllFit(t, lo, hi + 1)
  {
    hide Permuted, AllFit;
    PermutedLength(s, t, l, h + 1);
    PermutedWider(s, t, l, h + 1, lo, hi + 1);
    OuterKept(s, t, lo, l, h, hi);
    FitKept(s, t, lo, hi + 1);
  }

  lemma Rearranged(s: seq<int>, t: seq<int>, u: seq<int>, lo: int, l: int, h: int, hi: int)
    requires Permuted(s, t, lo, hi + 1) && Permuted(t, u, l, h + 1) && Outer(t, lo, l, h, hi)
    ensures Outer(u, lo, l, h, hi) && Permuted(s, u, lo, hi + 1)
  {
    hide Permuted;
    PermutedLength(t, u, l, h + 1);
    PermutedLength(s, t, lo, hi + 1);
    PermutedWider(t, u, l, h + 1, lo, hi + 1);
    PermutedTwice(s, t, u, lo, hi + 1);
    OuterKept(t, u, lo, l, h, hi);
  }

  /** Sort an array whose values fit the pivot variable, or that is too short to need a pivot. */
  method SortInts(a: array<int>, ghost depth: nat)
    requires a.Length <= Pow2(depth) && (a.Length <= 16 || AllFit(a[..], 0, a.Length))
    modifies a
    ensures Sorted(a[..], 0, a.Length) && multiset(a[..]) == multiset(old(a[..]))
  {
    if a.Length < 2 {
      return;
    }
    QuickSort(a, 0, a.Length - 1, depth);
    assert a[..][0..a.Length] == a[..] && old(a[..])[0..a.Length] == old(a[..]);
  }

  // ---------------------------------------------------------------- values beyond the pivot variable

  /** The scan is stopped by the stretch's own last value exactly when that value is not above the others
      once narrowed: it always is when it fits. */
  lemma {:induction false} ScanStays(s: seq<int>, i: nat, pivot: int)
    requires i < |s|
    ensures ScanRight(s, i, pivot) < |s| <==> exists k :: i <= k < |s| && s[k] >= pivot
    decreases |s| - i
  {
    if s[i] < pivot && i + 1 < |s| { ScanStays(s, i + 1, pivot); }
  }

  /** Seventeen equal values just below the 32-bit range: the narrowed pivot is above them all, and the
      left scan runs past the end. */
  lemma ScanEscapes()
    ensures var s := seq(17, _ => -0x8000_0001); ScanRight(s, 0, Narrow(s[16])) == 17
  {
    var s := seq(17, _ => -0x8000_0001);
    assert Narrow(s[16]) == 0x7FFF_FFFF;
    ScanStays(s, 0, Narrow(s[16]));
  }

  /** No weaker guard on length and range of values would do: for every length above the cut-off and every
      value v that does not fit, there is an array of v and v - 1 alone, its first, middle and last value all
      v so that the median of three exchanges nothing, on which the first partition goes wrong. Either the
      left scan reads past the end, or both scans stop at once at the front, and v is put there for good
      with a smaller value behind it. */
  lemma GuardTight(n: nat, v: int) returns (s: seq<int>)
    requires n > 16 && !Fits(v)
    ensures |s| == n && s[0] == s[(n - 1) / 2] == s[n - 1] == v && forall k :: 0 <= k < n ==> s[k] == v || s[k] == v - 1
    ensures ScanRight(s, 0, Narrow(s[n - 1])) == n ||
            (ScanRight(s, 0, Narrow(s[n - 1])) == 0 == ScanLeft(s, 0, n - 2, Narrow(s[n - 1])) && s[1] < s[0])
  {
    var pivot := Narrow(v);
    if v < pivot {
      s := seq(n, _ => v);
      ScanStays(s, 0, pivot);
    } else {
      NarrowExact(v);
      s := seq(n, k => if k == 1 then v - 1 else v);
      assert pivot < v - 1;
      AllAbove(s, n - 2, pivot);
    }
  }

  lemma {:induction false} AllAbove(s: seq<int>, j: nat, pivot: int)
    requires j < |s| && forall k :: 0 < k <= j ==> s[k] > pivot
    ensures ScanLeft(s, 0, j, pivot) == 0
    decreases j
  {
    if j > 0 { AllAbove(s, j - 1, pivot); }
  }
}
