/** What the heap's operations keep, where extract_min falls short, and how the heap serves
    as the list of its owner. */
module HeapOperations {
  import opened HeapOrder
  import opened HeapSift

  lemma {:induction false} InsertKeepsOrder<T>(s: seq<Entry<T>>, e: Entry<T>)
    requires Ordered(s)
    ensures Ordered(AfterInsert(s, e))
    ensures multiset(AfterInsert(s, e)) == multiset(s) + multiset{e}
  {
    var t := s + [e];
    forall k: nat | 2 <= k <= |t| && k != |t|
      ensures EdgeOrdered(t, k)
    {
      assert EdgeOrdered(s, k);
    }
    SiftUpRepairs(t, |t|);
    SiftUpKeepsElements(t, |t|);
  }

  lemma {:induction false} ExtractMinKeepsElements<T>(s: seq<Entry<T>>)
    requires s != []
    ensures multiset(s) == multiset(AfterExtractMin(s)) + multiset{s[0]}
  {
    if |s| == 1 {
      assert s == [s[0]];
    } else {
      var n := |s| - 1;
      var t := LastOverRoot(s);
      assert s == [s[0]] + s[1..n] + [s[n]];
      assert t == [s[n]] + s[1..n];
      SiftDownKeepsElements(t, 1);
    }
  }

  lemma {:induction false} ExtractLastKeepsElements<T>(s: seq<Entry<T>>)
    requires s != []
    ensures multiset(s) == multiset(AfterExtractLast(s)) + multiset{s[|s| - 1]}
  {
    assert s == AfterExtractLast(s) + [s[|s| - 1]];
  }

  lemma {:induction false} ExtractLastKeepsOrder<T>(s: seq<Entry<T>>)
    requires s != [] && Ordered(s)
    ensures Ordered(AfterExtractLast(s))
  {
    var t := AfterExtractLast(s);
    forall k: nat | 2 <= k <= |t|
      ensures EdgeOrdered(t, k)
    {
      assert EdgeOrdered(s, k);
    }
  }

  /** Where the element that replaced the root stops. */
  function StopLeaf<T>(s: seq<Entry<T>>): (leaf: nat)
    requires |s| >= 2
    ensures 1 <= leaf < |s|
  {
    Leaf(LastOverRoot(s), 1)
  }

  /** `extract_min` on an ordered heap takes a minimum and orders every edge except
      possibly the one above the leaf where the moved element stops; `heapify_up` from
      that leaf would order the heap again. */
  lemma {:induction false} ExtractMinAlmostOrdered<T>(s: seq<Entry<T>>)
    requires Ordered(s) && |s| >= 2
    ensures forall e :: e in s ==> s[0].id <= e.id
    ensures OrderedExceptAbove(AfterExtractMin(s), StopLeaf(s))
    ensures Ordered(SiftUp(AfterExtractMin(s), StopLeaf(s)))
  {
    forall e | e in s
      ensures s[0].id <= e.id
    {
      var i :| 0 <= i < |s| && s[i] == e;
      RootIsMinimum(s, i + 1);
    }
    ExtractMinSinks(s);
    SiftUpRepairs(AfterExtractMin(s), StopLeaf(s));
  }

  lemma {:induction false} ExtractMinSinks<T>(s: seq<Entry<T>>)
    requires Ordered(s) && |s| >= 2
    ensures OrderedExceptAbove(AfterExtractMin(s), StopLeaf(s))
    ensures AfterExtractMin(s)[StopLeaf(s) - 1] == s[|s| - 1]
    ensures StopLeaf(s) != 1 ==> AfterExtractMin(s)[StopLeaf(s) / 2 - 1] == s[StopLeaf(s) - 1]
  {
    var t := LastOverRoot(s);
    forall k: nat | 2 <= k <= |t| && k != 1 && k / 2 != 1
      ensures EdgeOrdered(t, k)
    {
      assert EdgeOrdered(s, k);
    }
    SiftDownEffect(t, 1);
  }

  /** Exactly when `extract_min`, which never runs `heapify_up`, leaves an ordered heap
      ordered: the last element is no smaller than the element at the end of the path of
      smaller children, which can be read off the array before the call. */
  lemma {:induction false} ExtractMinOrderedIff<T>(s: seq<Entry<T>>)
    requires Ordered(s) && |s| >= 2
    ensures Ordered(AfterExtractMin(s)) <==> StopLeaf(s) == 1 || s[StopLeaf(s) - 1].id <= s[|s| - 1].id
  {
    ExtractMinSinks(s);
    var r, leaf := AfterExtractMin(s), StopLeaf(s);
    if leaf != 1 {
      assert Ordered(r) ==> EdgeOrdered(r, leaf);
    }
  }

  // ---------------------------------------------------------------- as an owner's queue

  ghost predicate Ascending<T>(s: seq<Entry<T>>)
  {
    forall i, j :: 0 <= i < j < |s| ==> s[i].id < s[j].id
  }

  /** An owner numbers the jobs it inserts with a growing counter, so `insert` never swaps,
      whatever the order of the array; taking the last element undoes it. */
  lemma {:induction false} InsertOfLargestAppends<T>(s: seq<Entry<T>>, e: Entry<T>)
    requires forall x :: x in s ==> x.id < e.id
    ensures AfterInsert(s, e) == s + [e]
    ensures AfterExtractLast(AfterInsert(s, e)) == s
    ensures Ascending(s) ==> Ascending(AfterInsert(s, e))
  {
    var t := s + [e];
    if |t| > 1 {
      assert t[|t| / 2 - 1] in s;
    }
  }

  /** In an array no thief has touched since it was empty, the order is full, and the first
      `extract_min` keeps it so because the element it moves is the largest. */
  lemma {:induction false} FirstStealKeepsOrder<T>(s: seq<Entry<T>>)
    requires Ascending(s) && s != []
    ensures Ordered(s) && Ordered(AfterExtractMin(s))
  {
    forall k: nat | 2 <= k <= |s|
      ensures EdgeOrdered(s, k)
    {
      assert k / 2 - 1 < k - 1;
    }
    if |s| >= 2 {
      ExtractMinOrderedIff(s);
    }
  }

  /** A heap array whose jobs are named by their ids. */
  function FromIds(ids: seq<nat>): (s: seq<Entry<nat>>)
    ensures |s| == |ids|
    ensures forall i :: 0 <= i < |s| ==> s[i] == Entry(ids[i], ids[i])
  {
    if ids == [] then [] else [Entry(ids[0], ids[0])] + FromIds(ids[1..])
  }

  /** The ids that the next `k` extractions yield. */
  function Drain<T>(s: seq<Entry<T>>, k: nat): seq<nat>
    decreases k
  {
    if k == 0 || s == [] then [] else [s[0].id] + Drain(AfterExtractMin(s), k - 1)
  }

  /** The order really breaks: after 1..7 go in, five extractions yield 1, 2, 3, 4 and
      then 6, although 5 is still in the heap. */
  lemma {:induction false} ExtractMinCanMissTheMinimum()
    ensures Drain(FromIds([1, 2, 3, 4, 5, 6, 7]), 5) == [1, 2, 3, 4, 6]
  {
    hide AfterExtractMin, Drain;
    FirstTwoExtractions();
    LastTwoExtractions();
    var a, b := FromIds([1, 2, 3, 4, 5, 6, 7]), FromIds([2, 4, 3, 7, 5, 6]);
    var c, d, e := FromIds([3, 4, 6, 7, 5]), FromIds([4, 7, 6, 5]), FromIds([6, 7, 5]);
    OneMore(e, 1);
    OneMore(d, 2);
    OneMore(c, 3);
    OneMore(b, 4);
    OneMore(a, 5);
  }

  lemma {:induction false} OneMore<T>(s: seq<Entry<T>>, k: nat)
    requires s != [] && k > 0
    ensures Drain(s, k) == [s[0].id] + Drain(AfterExtractMin(s), k - 1)
    ensures k == 1 ==> Drain(s, k) == [s[0].id]
  {
  }

  lemma FirstTwoExtractions()
    ensures AfterExtractMin(FromIds([1, 2, 3, 4, 5, 6, 7])) == FromIds([2, 4, 3, 7, 5, 6])
    ensures AfterExtractMin(FromIds([2, 4, 3, 7, 5, 6])) == FromIds([3, 4, 6, 7, 5])
  {
    SinkTwice(LastOverRoot(FromIds([1, 2, 3, 4, 5, 6, 7])), 2, 4);
    SinkToLeaf(LastOverRoot(FromIds([2, 4, 3, 7, 5, 6])), 3);
  }

  lemma LastTwoExtractions()
    ensures AfterExtractMin(FromIds([3, 4, 6, 7, 5])) == FromIds([4, 7, 6, 5])
    ensures AfterExtractMin(FromIds([4, 7, 6, 5])) == FromIds([6, 7, 5])
  {
    SinkTwice(LastOverRoot(FromIds([3, 4, 6, 7, 5])), 2, 4);
    SinkToLeaf(LastOverRoot(FromIds([4, 7, 6, 5])), 3);
  }

  lemma {:induction false} SinkToLeaf<T>(s: seq<Entry<T>>, c: nat)
    requires 2 <= |s| < 2 * c && c == SmallerChild(s, 1)
    ensures SiftDown(s, 1) == Swap(s, 1, c)
  {
  }

  lemma {:induction false} SinkTwice<T>(s: seq<Entry<T>>, c: nat, d: nat)
    requires 2 <= |s| && c == SmallerChild(s, 1) && 2 * c <= |s| < 2 * d
    requires d == SmallerChild(Swap(s, 1, c), c)
    ensures SiftDown(s, 1) == Swap(Swap(s, 1, c), c, d)
  {
    var t := Swap(s, 1, c);
    assert SiftDown(t, c) == SiftDown(Swap(t, c, d), d) == Swap(t, c, d);
  }

  // ---------------------------------------------------------------- names for jobs

  /** The same heap array with other names for its jobs; the heap looks at ids only. */
  function Renamed<T, U>(s: seq<Entry<T>>, name: T -> U): (r: seq<Entry<U>>)
    ensures |r| == |s|
    ensures forall i :: 0 <= i < |s| ==> r[i] == Entry(s[i].id, name(s[i].job))
  {
    seq(|s|, i requires 0 <= i < |s| => Entry(s[i].id, name(s[i].job)))
  }

  lemma {:induction false} RenamedSiftUp<T, U>(s: seq<Entry<T>>, name: T -> U, c: nat)
    requires 1 <= c <= |s|
    ensures Renamed(SiftUp(s, c), name) == SiftUp(Renamed(s, name), c)
    decreases c
  {
    if c > 1 && s[c / 2 - 1].id > s[c - 1].id {
      assert Renamed(Swap(s, c / 2, c), name) == Swap(Renamed(s, name), c / 2, c);
      RenamedSiftUp(Swap(s, c / 2, c), name, c / 2);
    }
  }

  lemma {:induction false} RenamedSiftDown<T, U>(s: seq<Entry<T>>, name: T -> U, p: nat)
    requires 1 <= p
    ensures Renamed(SiftDown(s, p), name) == SiftDown(Renamed(s, name), p)
    decreases |s| - p
  {
    if 2 * p <= |s| {
      var c := SmallerChild(s, p);
      assert Renamed(Swap(s, p, c), name) == Swap(Renamed(s, name), p, c);
      RenamedSiftDown(Swap(s, p, c), name, c);
    }
  }

  /** The operations do not depend on what the jobs are called. */
  lemma {:induction false} OperationsIgnoreNames<T, U>(s: seq<Entry<T>>, name: T -> U, e: Entry<T>)
    ensures Renamed(AfterInsert(s, e), name) == AfterInsert(Renamed(s, name), Entry(e.id, name(e.job)))
    ensures s != [] ==> Renamed(AfterExtractMin(s), name) == AfterExtractMin(Renamed(s, name))
    ensures s != [] ==> Renamed(AfterExtractLast(s), name) == AfterExtractLast(Renamed(s, name))
  {
    RenamedSiftUp(s + [e], name, |s| + 1);
    assert Renamed(s + [e], name) == Renamed(s, name) + [Entry(e.id, name(e.job))];
    if |s| >= 2 {
      RenamedSiftDown(LastOverRoot(s), name, 1);
      assert Renamed(LastOverRoot(s), name) == LastOverRoot(Renamed(s, name));
    }
  }
}
