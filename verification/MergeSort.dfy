/** The fork/join merge sort of merge_sort.cpp on one shared array. */
module MergeSort {

  predicate Sorted(s: seq<int>)
  {
    forall i, j :: 0 <= i < j < |s| ==> s[i] <= s[j]
  }

  // ---------------------------------------------------------------- short segments

  /** One comparison of the base case: swap positions i and i + 1 if they are out of order. */
  function Order(s: seq<int>, i: nat): (r: seq<int>)
    requires i + 1 < |s|
    ensures |r| == |s|
  {
    if s[i] > s[i + 1] then s[i := s[i + 1]][i + 1 := s[i]] else s
  }

  datatype Outcome = Outcome(s: seq<int>, ordered: bool)

  /** The rest of a pass from position `i`; `ordered` is the flag, which every comparison
      overwrites, so that the last one decides. */
  function Pass(s: seq<int>, i: nat, ordered: bool): (o: Outcome)
    ensures |o.s| == |s|
    decreases |s| - i
  {
    if i + 1 < |s| then Pass(Order(s, i), i + 1, s[i] <= s[i + 1]) else Outcome(s, ordered)
  }

  lemma PassOne(s: seq<int>, i: nat, ordered: bool)
    ensures i + 1 < |s| ==> Pass(s, i, ordered) == Pass(Order(s, i), i + 1, s[i] <= s[i + 1])
    ensures i + 1 >= |s| ==> Pass(s, i, ordered) == Outcome(s, ordered)
  {
  }

  function Smaller(s: seq<int>, x: int): nat
  {
    if s == [] then 0 else Smaller(s[1..], x) + if s[0] < x then 1 else 0
  }

  function Inversions(s: seq<int>): nat
  {
    if s == [] then 0 else Inversions(s[1..]) + Smaller(s[1..], s[0])
  }

  /** The do-while loop of the base case. */
  function Base(s: seq<int>): seq<int>
    decreases Inversions(s)
  {
    var o := Pass(s, 0, true);
    PassReduces(s, 0, true);
    if o.ordered then o.s else Base(o.s)
  }

  lemma {:induction false} OrderSmaller(s: seq<int>, i: nat, x: int)
    requires i + 1 < |s|
    ensures Smaller(Order(s, i), x) == Smaller(s, x)
    decreases |s|
  {
    var t := Order(s, i);
    if i == 0 {
      assert t[1..][1..] == s[1..][1..];
    } else {
      assert t[1..] == Order(s[1..], i - 1);
      OrderSmaller(s[1..], i - 1, x);
    }
  }

  /** Swapping an adjacent pair that is out of order removes exactly one inversion. */
  lemma {:induction false} OrderReduces(s: seq<int>, i: nat)
    requires i + 1 < |s|
    ensures Inversions(Order(s, i)) == Inversions(s) - if s[i] > s[i + 1] then 1 else 0
    decreases |s|
  {
    var t := Order(s, i);
    if i == 0 {
      assert t[1..][1..] == s[1..][1..];
    } else {
      assert t[1..] == Order(s[1..], i - 1);
      OrderReduces(s[1..], i - 1);
      OrderSmaller(s[1..], i - 1, s[0]);
    }
  }

  /** A pass never adds inversions, and one that ends with a swap removed some. */
  lemma {:induction false} PassReduces(s: seq<int>, i: nat, ordered: bool)
    ensures Inversions(Pass(s, i, ordered).s) <= Inversions(s)
    ensures ordered && !Pass(s, i, ordered).ordered ==> Inversions(Pass(s, i, ordered).s) < Inversions(s)
    decreases |s| - i
  {
    if i + 1 < |s| {
      OrderReduces(s, i);
      PassReduces(Order(s, i), i + 1, s[i] <= s[i + 1]);
    }
  }

  lemma OrderPermutes(s: seq<int>, i: nat)
    requires i + 1 < |s|
    ensures multiset(Order(s, i)) == multiset(s)
  {
  }

  lemma {:induction false} PassPermutes(s: seq<int>, i: nat, ordered: bool)
    ensures multiset(Pass(s, i, ordered).s) == multiset(s)
    decreases |s| - i
  {
    hide Order;
    if i + 1 < |s| {
      PassPermutes(Order(s, i), i + 1, s[i] <= s[i + 1]);
      OrderPermutes(s, i);
    }
  }

  lemma {:induction false} BasePermutes(s: seq<int>)
    ensures multiset(Base(s)) == multiset(s) && |Base(s)| == |s|
    decreases Inversions(s)
  {
    var o := Pass(s, 0, true);
    PassPermutes(s, 0, true);
    PassReduces(s, 0, true);
    if !o.ordered {
      BasePermutes(o.s);
    }
  }

  /** Up to length 3 a pass whose last comparison found its pair in order has sorted. */
  lemma {:induction false} BaseSortsThree(s: seq<int>)
    requires |s| <= 3
    ensures Sorted(Base(s))
    decreases Inversions(s)
  {
    var o := Pass(s, 0, true);
    PassReduces(s, 0, true);
    if !o.ordered {
      BaseSortsThree(o.s);
    } else if |s| == 3 {
      var t := Order(s, 0);
      assert Pass(t, 1, s[0] <= s[1]) == Pass(Order(t, 1), 2, t[1] <= t[2]);
    } else if |s| == 2 {
      assert o.s == Order(s, 0);
    }
  }

  lemma {:induction false} PassOverSorted(s: seq<int>, i: nat, ordered: bool)
    requires forall k :: i <= k < |s| - 1 ==> s[k] <= s[k + 1]
    ensures Pass(s, i, ordered) == Outcome(s, ordered || i + 1 < |s|)
    decreases |s| - i
  {
    if i + 1 < |s| {
      PassOverSorted(s, i + 1, true);
    }
  }

  function Unlucky(m: nat): (s: seq<int>)
    requires m >= 4
    ensures |s| == m
  {
    [3, 2, 1] + seq(m - 3, i => 4 + i)
  }

  /** From length 4 on, the flag forgets earlier swaps: the loop stops after one pass over
      3, 2, 1, 4, 5, ... with 2 before 1. */
  lemma UnluckyStaysUnsorted(m: nat)
    requires m >= 4
    ensures !Sorted(Base(Unlucky(m)))
  {
    var s := Unlucky(m);
    var t := Order(s, 0);
    var u := Order(t, 1);
    assert u[0] == 2 && u[1] == 1 && u[2] == 3;
    assert forall k :: 3 <= k < m ==> u[k] == k + 1;
    PassOverSorted(u, 2, false);
    assert Pass(s, 0, true) == Pass(t, 1, false) == Pass(u, 2, false) == Outcome(u, true);
  }

  /** The guard `tam > 3` is exactly right: the base case sorts all segments of a length if
      and only if that length is at most 3. */
  lemma {:induction false} BaseSortsIff(m: nat)
    ensures (forall s: seq<int> :: |s| == m ==> Sorted(Base(s))) <==> m <= 3
  {
    if m <= 3 {
      forall s: seq<int> | |s| == m
        ensures Sorted(Base(s))
      {
        BaseSortsThree(s);
      }
    } else {
      UnluckyStaysUnsorted(m);
    }
  }

  // ---------------------------------------------------------------- merging

  function Merged(a: seq<int>, b: seq<int>): (r: seq<int>)
    ensures |r| == |a| + |b|
    decreases |a| + |b|
  {
    if a == [] then b
    else if b == [] then a
    else if a[0] > b[0] then [b[0]] + Merged(a, b[1..])
    else [a[0]] + Merged(a[1..], b)
  }

  lemma {:induction false} MergedPermutes(a: seq<int>, b: seq<int>)
    ensures multiset(Merged(a, b)) == multiset(a) + multiset(b)
    decreases |a| + |b|
  {
    if a != [] && b != [] {
      if a[0] > b[0] {
        assert b == [b[0]] + b[1..];
        MergedPermutes(a, b[1..]);
      } else {
        assert a == [a[0]] + a[1..];
        MergedPermutes(a[1..], b);
      }
    }
  }

  lemma {:induction false} MergedSorted(a: seq<int>, b: seq<int>)
    requires Sorted(a) && Sorted(b)
    ensures Sorted(Merged(a, b))
    decreases |a| + |b|
  {
    if a != [] && b != [] {
      if a[0] > b[0] {
        MergedSorted(a, b[1..]);
        MergedAbove(a, b[1..], b[0]);
        SortedCons(b[0], Merged(a, b[1..]));
      } else {
        MergedSorted(a[1..], b);
        MergedAbove(a[1..], b, a[0]);
        SortedCons(a[0], Merged(a[1..], b));
      }
    }
  }

  lemma MergedAbove(a: seq<int>, b: seq<int>, x: int)
    requires forall y :: y in a || y in b ==> x <= y
    ensures forall y :: y in Merged(a, b) ==> x <= y
  {
    MergedPermutes(a, b);
    forall y | y in Merged(a, b)
      ensures x <= y
    {
      assert y in multiset(a) + multiset(b);
      if y in multiset(a) {
        assert y in a;
      } else {
        assert y in b;
      }
    }
  }

  lemma SortedCons(x: int, s: seq<int>)
    requires Sorted(s) && forall y :: y in s ==> x <= y
    ensures Sorted([x] + s)
  {
    var t := [x] + s;
    forall i, j | 0 <= i < j < |t|
      ensures t[i] <= t[j]
    {
      assert t[j] == s[j - 1] && t[j] in s;
      assert i > 0 ==> t[i] == s[i - 1];
    }
  }

  // ---------------------------------------------------------------- the result is unique

  lemma HeadsAgree(a: seq<int>, b: seq<int>)
    requires Sorted(a) && Sorted(b) && multiset(a) == multiset(b) && a != []
    ensures b != [] && b[0] <= a[0]
  {
    assert a[0] in multiset(b);
    var i :| 0 <= i < |b| && b[i] == a[0];
    assert i > 0 ==> b[0] <= b[i];
  }

  lemma SortedTail(a: seq<int>)
    requires a != []
    ensures Sorted(a) ==> Sorted(a[1..])
    ensures multiset(a[1..]) == multiset(a) - multiset{a[0]}
  {
    assert a == [a[0]] + a[1..];
  }

  /** Two sorted sequences with the same elements are equal; so the outcome of a sort does
      not depend on the order in which its parts were done. */
  lemma {:induction false} SortedIsUnique(a: seq<int>, b: seq<int>)
    requires Sorted(a) && Sorted(b) && multiset(a) == multiset(b)
    ensures a == b
    decreases |a|
  {
    if a == [] {
      assert |multiset(b)| == 0;
    } else {
      HeadsAgree(a, b);
      HeadsAgree(b, a);
      SortedTail(a);
      SortedTail(b);
      SortedIsUnique(a[1..], b[1..]);
      assert a == [a[0]] + a[1..] && b == [b[0]] + b[1..];
    }
  }

  // ---------------------------------------------------------------- the program

  /** Positions lo..hi of `after` hold `segment`, the rest is as in `before`. */
  ghost predicate Replaced(before: seq<int>, after: seq<int>, lo: nat, hi: nat, segment: seq<int>)
  {
    && lo <= hi <= |before| == |after|
    && (forall k :: 0 <= k < lo ==> after[k] == before[k])
    && (forall k :: hi <= k < |after| ==> after[k] == before[k])
    && after[lo..hi] == segment
  }

  /** One pass of the bubble loop over vec[pos..last]. */
  method BubblePass(vec: array<int>, pos: nat, last: int, flag: bool) returns (ordered: bool)
    requires pos <= last + 1 <= vec.Length
    modifies vec
    ensures var o := Pass(old(vec[..])[pos..last + 1], 0, flag);
            ordered == o.ordered && Replaced(old(vec[..]), vec[..], pos, last + 1, o.s)
  {
    hide Pass;
    ordered := flag;
    var i := pos;
    ghost var s := vec[..][pos..last + 1];
    ghost var goal := Pass(s, 0, flag);
    while i < last
      invariant pos <= i && (i <= last || i == pos)
      invariant |s| == last + 1 - pos && Pass(s, i - pos, ordered) == goal
      invariant forall m :: 0 <= m < |s| ==> vec[pos + m] == s[m]
      invariant forall m :: 0 <= m < vec.Length && !(pos <= m <= last) ==> vec[m] == old(vec[m])
    {
      assert vec[pos + (i - pos)] == s[i - pos] && vec[pos + (i - pos + 1)] == s[i - pos + 1];
      PassOne(s, i - pos, ordered);
      s := Order(s, i - pos);
      ordered := true;
      if vec[i] > vec[i + 1] {
        vec[i], vec[i + 1] := vec[i + 1], vec[i];
        ordered := false;
      }
      i := i + 1;
    }
    PassOne(s, i - pos, ordered);
    assert vec[..][pos..last + 1] == s;
  }

  /** The else branch of mergeSort. */
  method SortShort(vec: array<int>, pos: nat, last: int)
    requires pos <= last + 1 <= vec.Length
    modifies vec
    ensures Replaced(old(vec[..]), vec[..], pos, last + 1, Base(old(vec[..])[pos..last + 1]))
  {
    ghost var s := vec[..][pos..last + 1];
    ghost var goal := Base(s);
    PassReduces(s, 0, true);
    var ordered := BubblePass(vec, pos, last, true);
    s := Pass(s, 0, true).s;
    while !ordered
      invariant Replaced(old(vec[..]), vec[..], pos, last + 1, s)
      invariant goal == if ordered then s else Base(s)
      decreases Inversions(s), !ordered
    {
      PassReduces(s, 0, true);
      ordered := BubblePass(vec, pos, last, true);
      s := Pass(s, 0, true).s;
    }
  }

  /** A copying loop: from[i..end] goes to the positions from `k` on. */
  method CopyRun(from: array<int>, to: array<int>, i: nat, end: nat, k: nat)
    requires i <= end <= from.Length && k + (end - i) <= to.Length && from != to
    modifies to
    ensures Replaced(old(to[..]), to[..], k, k + (end - i), from[i..end])
  {
    for m := i to end
      invariant forall n :: 0 <= n < to.Length && !(k <= n < k + (m - i)) ==> to[n] == old(to[n])
      invariant forall n :: i <= n < m ==> to[k + (n - i)] == from[n]
    {
      to[k + (m - i)] := from[m];
    }
    assert to[..][k..k + (end - i)] == from[i..end];
  }

  /** The first loop of the merge: until one of vec[i..mid], vec[j..last] is used up. */
  method MergeHeads(vec: array<int>, temp: array<int>, pos: nat, mid: nat, last: nat) returns (i: nat, j: nat, k: nat)
    requires pos <= mid < last < vec.Length && last < temp.Length && temp != vec
    modifies temp
    ensures pos <= i <= mid + 1 <= j <= last + 1 && k == i + j - mid - 1 && (i > mid || j > last)
    ensures temp[pos..k] + vec[i..mid + 1] + vec[j..last + 1] == Merged(vec[pos..mid + 1], vec[mid + 1..last + 1])
  {
    hide Merged;
    ghost var v := vec[..];
    ghost var x, y := v[pos..mid + 1], v[mid + 1..last + 1];
    ghost var goal, n := Merged(x, y), 0;
    assert x == vec[pos..mid + 1] && y == vec[mid + 1..last + 1];
    i, j, k := pos, mid + 1, pos;
    while i <= mid && j <= last
      invariant pos <= i <= mid + 1 <= j <= last + 1 && k == i + j - mid - 1
      invariant vec[..] == v && x == v[i..mid + 1] && y == v[j..last + 1]
      invariant n == k - pos <= |goal| && goal[n..] == Merged(x, y)
      invariant forall m :: pos <= m < k ==> temp[m] == goal[m - pos]
    {
      MergeStep(x, y, goal, n);
      assert x[0] == v[i] && v[i] == vec[..][i] && y[0] == v[j] && v[j] == vec[..][j];
      if vec[i] > vec[j] {
        temp[k] := vec[j];
        y := y[1..];
        j := j + 1;
      } else {
        temp[k] := vec[i];
        x := x[1..];
        i := i + 1;
      }
      k, n := k + 1, n + 1;
    }
    assert temp[pos..k] == goal[..n];
    MergeEnd(x, y, goal, n);
    assert x == vec[i..mid + 1] && y == vec[j..last + 1];
  }

  lemma MergeEnd(x: seq<int>, y: seq<int>, goal: seq<int>, n: nat)
    requires (x == [] || y == []) && n <= |goal| && goal[n..] == Merged(x, y)
    ensures goal[..n] + x + y == goal
  {
    assert goal == goal[..n] + goal[n..];
    assert Merged(x, y) == x + y;
  }

  /** The merge of vec[pos..mid] and vec[mid + 1..last] into the temporary array. */
  method MergeInto(vec: array<int>, temp: array<int>, pos: nat, mid: nat, last: nat)
    requires pos <= mid < last < vec.Length && last < temp.Length && temp != vec
    modifies temp
    ensures temp[pos..last + 1] == Merged(vec[pos..mid + 1], vec[mid + 1..last + 1])
  {
    hide Merged;
    var i, j, k := MergeHeads(vec, temp, pos, mid, last);
    ghost var out := temp[pos..k];
    CopyRun(vec, temp, i, mid + 1, k);
    ghost var t := temp[..];
    CopyRun(vec, temp, j, last + 1, k + (mid + 1 - i));
    AppendTwice(t, temp[..], pos, k, last + 1, out, vec[i..mid + 1], vec[j..last + 1]);
  }

  lemma AppendTwice(t: seq<int>, u: seq<int>, lo: nat, k: nat, hi: nat, out: seq<int>, x: seq<int>, y: seq<int>)
    requires lo <= k && k + |x| + |y| == hi <= |t| && out == t[lo..k] && t[k..k + |x|] == x
    requires Replaced(t, u, k + |x|, hi, y)
    ensures u[lo..hi] == out + x + y
  {
    assert u[lo..k] == out;
    assert u[k..k + |x|] == x;
    assert u[lo..hi] == u[lo..k] + u[k..k + |x|] + u[k + |x|..hi];
  }

  /** The next element of the merge. */
  lemma MergeStep(x: seq<int>, y: seq<int>, goal: seq<int>, n: nat)
    requires x != [] && y != [] && n <= |goal| && goal[n..] == Merged(x, y)
    ensures n < |goal| && goal[n] == (if x[0] > y[0] then y[0] else x[0]) && goal[..n + 1] == goal[..n] + [goal[n]]
    ensures goal[n + 1..] == if x[0] > y[0] then Merged(x, y[1..]) else Merged(x[1..], y)
  {
    assert goal[n] == goal[n..][0] && goal[n + 1..] == goal[n..][1..];
  }

  /** The merge in place: `size` slots of temporary storage, then copied back. */
  method Merge(vec: array<int>, pos: nat, mid: nat, last: nat, size: nat)
    requires pos <= mid < last < vec.Length && last < size
    modifies vec
    ensures Replaced(old(vec[..]), vec[..], pos, last + 1,
                     Merged(old(vec[..])[pos..mid + 1], old(vec[..])[mid + 1..last + 1]))
  {
    var temp := new int[size];
    MergeInto(vec, temp, pos, mid, last);
    assert vec[..][pos..mid + 1] == vec[pos..mid + 1] && vec[..][mid + 1..last + 1] == vec[mid + 1..last + 1];
    CopyRun(temp, vec, pos, last + 1, pos);
  }

  /** Between two states of the array: positions lo..hi have been sorted, and nothing else
      has changed. */
  ghost predicate SegmentSorted(before: seq<int>, after: seq<int>, lo: nat, hi: nat)
  {
    && lo <= hi <= |before| == |after|
    && Replaced(before, after, lo, hi, after[lo..hi])
    && Sorted(after[lo..hi])
    && multiset(after[lo..hi]) == multiset(before[lo..hi])
  }

  /** Both halves of lo..hi have been sorted. */
  ghost predicate HalvesSorted(s: seq<int>, u: seq<int>, lo: nat, mid: nat, hi: nat)
  {
    && lo <= mid <= hi <= |s| == |u|
    && Replaced(s, u, lo, hi, u[lo..hi])
    && Sorted(u[lo..mid]) && Sorted(u[mid..hi])
    && multiset(u[lo..mid]) + multiset(u[mid..hi]) == multiset(s[lo..hi])
  }

  lemma LeftThenRight(s: seq<int>, t: seq<int>, u: seq<int>, lo: nat, mid: nat, hi: nat)
    requires lo <= mid <= hi <= |s| && SegmentSorted(s, t, lo, mid) && SegmentSorted(t, u, mid, hi)
    ensures HalvesSorted(s, u, lo, mid, hi)
  {
    assert s[lo..hi] == s[lo..mid] + s[mid..hi];
    assert u[lo..mid] == t[lo..mid];
    assert t[mid..hi] == s[mid..hi];
  }

  lemma RightThenLeft(s: seq<int>, t: seq<int>, u: seq<int>, lo: nat, mid: nat, hi: nat)
    requires lo <= mid <= hi <= |s| && SegmentSorted(s, t, mid, hi) && SegmentSorted(t, u, lo, mid)
    ensures HalvesSorted(s, u, lo, mid, hi)
  {
    assert s[lo..hi] == s[lo..mid] + s[mid..hi];
    assert t[lo..mid] == s[lo..mid];
    assert u[mid..hi] == t[mid..hi];
  }

  /** One child. */
  method SortHalf(vec: array<int>, right: bool, pos: nat, mid: nat, last: int, size: nat, maxThreads: int, threads: int)
    requires pos <= mid < last < vec.Length && last < size
    modifies vec
    ensures if right then SegmentSorted(old(vec[..]), vec[..], mid + 1, last + 1)
            else SegmentSorted(old(vec[..]), vec[..], pos, mid + 1)
    decreases last - pos + 1, 0
  {
    if right {
      Sort(vec, mid + 1, last, size, maxThreads, threads + 2);
    } else {
      Sort(vec, pos, mid, size, maxThreads, threads + 1);
    }
  }

  /** Both children, one after the other: with forking in either order, without it the left one
      first.  The MergeTasks module lets them run at the same time. */
  method SortHalves(vec: array<int>, pos: nat, mid: nat, last: int, size: nat, maxThreads: int, threads: int)
    requires pos <= mid < last < vec.Length && last < size
    modifies vec
    ensures HalvesSorted(old(vec[..]), vec[..], pos, mid + 1, last + 1)
    decreases last - pos + 1, 1
  {
    ghost var s := vec[..];
    var choice: bool := *;
    var rightFirst := threads <= maxThreads && choice;
    SortHalf(vec, rightFirst, pos, mid, last, size, maxThreads, threads);
    ghost var t := vec[..];
    SortHalf(vec, !rightFirst, pos, mid, last, size, maxThreads, threads);
    TwoChildren(s, t, vec[..], pos, mid + 1, last + 1);
  }

  lemma TwoChildren(s: seq<int>, t: seq<int>, u: seq<int>, lo: nat, mid: nat, hi: nat)
    requires lo <= mid <= hi <= |s|
    requires
      || (SegmentSorted(s, t, lo, mid) && SegmentSorted(t, u, mid, hi))
      || (SegmentSorted(s, t, mid, hi) && SegmentSorted(t, u, lo, mid))
    ensures HalvesSorted(s, u, lo, mid, hi)
  {
    if SegmentSorted(s, t, lo, mid) && SegmentSorted(t, u, mid, hi) {
      LeftThenRight(s, t, u, lo, mid, hi);
    } else {
      RightThenLeft(s, t, u, lo, mid, hi);
    }
  }

  /** The branch for more than three elements. */
  method SortLong(vec: array<int>, pos: nat, last: int, size: nat, maxThreads: int, threads: int)
    requires pos + 3 <= last < vec.Length && last < size
    modifies vec
    ensures SegmentSorted(old(vec[..]), vec[..], pos, last + 1)
    decreases last - pos + 1, 2
  {
    hide Sorted, Replaced, HalvesSorted, SegmentSorted;
    ghost var s := vec[..];
    var mid := (pos + last) / 2;
    SortHalves(vec, pos, mid, last, size, maxThreads, threads);
    ghost var u := vec[..];
    Merge(vec, pos, mid, last, size);
    MergeEffect(s, u, vec[..], pos, mid + 1, last + 1);
  }

  /** mergeSort on vec[pos..last], with `size` slots of temporary storage. */
  method Sort(vec: array<int>, pos: nat, last: int, size: nat, maxThreads: int, threads: int)
    requires pos <= last + 1 <= vec.Length && last < size
    modifies vec
    ensures SegmentSorted(old(vec[..]), vec[..], pos, last + 1)
    decreases last - pos + 1, 3
  {
    if last - pos + 1 > 3 {
      SortLong(vec, pos, last, size, maxThreads, threads);
    } else {
      ghost var s := vec[..];
      SortShort(vec, pos, last);
      ShortEffect(s, vec[..], pos, last + 1);
    }
  }

  lemma MergeEffect(s: seq<int>, u: seq<int>, r: seq<int>, lo: nat, mid: nat, hi: nat)
    requires HalvesSorted(s, u, lo, mid, hi)
    requires Replaced(u, r, lo, hi, Merged(u[lo..mid], u[mid..hi]))
    ensures SegmentSorted(s, r, lo, hi)
  {
    MergedSorted(u[lo..mid], u[mid..hi]);
    MergedPermutes(u[lo..mid], u[mid..hi]);
  }

  lemma ShortEffect(s: seq<int>, r: seq<int>, lo: nat, hi: nat)
    requires lo <= hi <= |s| && hi - lo <= 3 && Replaced(s, r, lo, hi, Base(s[lo..hi]))
    ensures SegmentSorted(s, r, lo, hi)
  {
    BaseSortsThree(s[lo..hi]);
    BasePermutes(s[lo..hi]);
  }

  /** So all thread budgets and all orders of the children give the same array. */
  lemma SameResult(s: seq<int>, a: seq<int>, b: seq<int>, lo: nat, hi: nat)
    requires SegmentSorted(s, a, lo, hi) && SegmentSorted(s, b, lo, hi)
    ensures a == b
  {
    SortedIsUnique(a[lo..hi], b[lo..hi]);
    forall k | 0 <= k < |s|
      ensures a[k] == b[k]
    {
      assert lo <= k < hi ==> a[k] == a[lo..hi][k - lo] && b[k] == b[lo..hi][k - lo];
    }
  }
}
