/** Heap order, and what the two sifting loops do to it. */
module HeapSift {
  import opened HeapOrder

  predicate EdgeOrdered<T>(s: seq<Entry<T>>, k: nat)
    requires 2 <= k <= |s|
  {
    s[k / 2 - 1].id <= s[k - 1].id
  }

  ghost predicate Ordered<T>(s: seq<Entry<T>>)
  {
    forall k: nat :: 2 <= k <= |s| ==> EdgeOrdered(s, k)
  }

  /** Every edge is ordered except possibly the one above `c`. */
  ghost predicate OrderedExceptAbove<T>(s: seq<Entry<T>>, c: nat)
  {
    forall k: nat :: 2 <= k <= |s| && k != c ==> EdgeOrdered(s, k)
  }

  predicate NoLarger<T>(s: seq<Entry<T>>, a: nat, k: nat)
    requires 1 <= a <= |s| && 1 <= k <= |s|
  {
    s[a - 1].id <= s[k - 1].id
  }

  /** The parent of `c` is no larger than the children of `c`. */
  ghost predicate Bridged<T>(s: seq<Entry<T>>, c: nat)
  {
    forall k: nat :: 4 <= k <= |s| && k / 2 == c ==> NoLarger(s, c / 2, k)
  }

  /** Every edge is ordered except possibly those that touch `p`. */
  ghost predicate OrderedAround<T>(s: seq<Entry<T>>, p: nat)
  {
    forall k: nat :: 2 <= k <= |s| && k != p && k / 2 != p ==> EdgeOrdered(s, k)
  }

  lemma SwapKeepsElements<T>(s: seq<Entry<T>>, p: nat, c: nat)
    requires 1 <= p <= |s| && 1 <= c <= |s|
    ensures multiset(Swap(s, p, c)) == multiset(s)
  {
  }

  lemma {:induction false} SiftUpKeepsElements<T>(s: seq<Entry<T>>, c: nat)
    requires 1 <= c <= |s|
    ensures multiset(SiftUp(s, c)) == multiset(s)
    decreases c
  {
    if c > 1 && s[c / 2 - 1].id > s[c - 1].id {
      SwapKeepsElements(s, c / 2, c);
      SiftUpKeepsElements(Swap(s, c / 2, c), c / 2);
    }
  }

  /** `heapify_up` repairs the one edge above `c`. */
  lemma {:induction false} SiftUpRepairs<T>(s: seq<Entry<T>>, c: nat)
    requires 1 <= c <= |s|
    requires OrderedExceptAbove(s, c) && Bridged(s, c)
    ensures Ordered(SiftUp(s, c))
    decreases c
  {
    if c > 1 && s[c / 2 - 1].id > s[c - 1].id {
      var p := c / 2;
      var t := Swap(s, p, c);
      forall k: nat | 2 <= k <= |t| && k != p
        ensures EdgeOrdered(t, k)
      {
        assert k != c ==> EdgeOrdered(s, k);
        assert p > 1 ==> EdgeOrdered(s, p);
        assert k / 2 == c ==> NoLarger(s, p, k);
      }
      forall k: nat | 4 <= k <= |t| && k / 2 == p
        ensures NoLarger(t, p / 2, k)
      {
        assert EdgeOrdered(s, p);
        assert k != c ==> EdgeOrdered(s, k);
      }
      SiftUpRepairs(t, p);
    }
  }

  lemma {:induction false} SiftDownKeepsElements<T>(s: seq<Entry<T>>, p: nat)
    requires 1 <= p
    ensures multiset(SiftDown(s, p)) == multiset(s)
    decreases |s| - p
  {
    if 2 * p <= |s| {
      var c := SmallerChild(s, p);
      SwapKeepsElements(s, p, c);
      SiftDownKeepsElements(Swap(s, p, c), c);
    }
  }

  /** One turn of the `heapify_down` loop moves the gap in the order from `p` to its
      smaller child. */
  lemma {:induction false} SinkOnce<T>(s: seq<Entry<T>>, p: nat)
    requires 1 <= p && 2 * p <= |s|
    requires OrderedAround(s, p) && Bridged(s, p)
    ensures var c := SmallerChild(s, p);
            OrderedAround(Swap(s, p, c), c) && Bridged(Swap(s, p, c), c)
  {
    var c := SmallerChild(s, p);
    var t := Swap(s, p, c);
    forall k: nat | 2 <= k <= |t| && k != c && k / 2 != c
      ensures EdgeOrdered(t, k)
    {
      if k == p {
        assert c >= 4 && c / 2 == p;
        assert NoLarger(s, p / 2, c);
      } else if k / 2 != p {
        assert EdgeOrdered(s, k);
      } else {
        assert k == 2 * p || k == 2 * p + 1;
      }
    }
    forall k: nat | 4 <= k <= |t| && k / 2 == c
      ensures NoLarger(t, c / 2, k)
    {
      assert EdgeOrdered(s, k);
    }
  }

  /** What `heapify_down` does to the array: the sunk element ends at the leaf of the
      smaller-child path, the element of that leaf moves to the leaf's parent, and every
      edge but the one above that leaf is ordered. */
  lemma {:induction false} SiftDownEffect<T>(s: seq<Entry<T>>, p: nat)
    requires 1 <= p <= |s|
    requires OrderedAround(s, p) && Bridged(s, p)
    ensures OrderedExceptAbove(SiftDown(s, p), Leaf(s, p))
    ensures SiftDown(s, p)[Leaf(s, p) - 1] == s[p - 1]
    ensures Leaf(s, p) != p ==> SiftDown(s, p)[Leaf(s, p) / 2 - 1] == s[Leaf(s, p) - 1]
    ensures forall i :: 0 <= i < p - 1 ==> SiftDown(s, p)[i] == s[i]
    decreases |s| - p
  {
    hide Bridged, OrderedAround, OrderedExceptAbove;
    if 2 * p <= |s| {
      var c := SmallerChild(s, p);
      var t := Swap(s, p, c);
      SinkOnce(s, p);
      LeafUnaffected(s, t, c);
      SiftDownEffect(t, c);
    } else {
      LeafAround(s, p);
    }
  }

  lemma {:induction false} LeafAround<T>(s: seq<Entry<T>>, p: nat)
    requires 1 <= p <= |s| < 2 * p && OrderedAround(s, p)
    ensures OrderedExceptAbove(s, p)
  {
    forall k: nat | 2 <= k <= |s| && k != p
      ensures EdgeOrdered(s, k)
    {
      assert k / 2 != p;
    }
  }

  /** The path below `c` only depends on the positions below `c`. */
  lemma {:induction false} LeafUnaffected<T>(s: seq<Entry<T>>, t: seq<Entry<T>>, c: nat)
    requires 1 <= c <= |s| == |t|
    requires forall i :: c <= i < |s| ==> s[i] == t[i]
    ensures Leaf(s, c) == Leaf(t, c)
    decreases |s| - c
  {
    if 2 * c <= |s| {
      LeafUnaffected(s, t, SmallerChild(s, c));
    }
  }

  /** In an ordered heap the root is a minimum. */
  lemma {:induction false} RootIsMinimum<T>(s: seq<Entry<T>>, i: nat)
    requires Ordered(s) && 1 <= i <= |s|
    ensures s[0].id <= s[i - 1].id
  {
    if i > 1 {
      assert EdgeOrdered(s, i);
      RootIsMinimum(s, i / 2);
    }
  }
}
