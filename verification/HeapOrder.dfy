/** The array heap behind each virtual processor's job list, as functions on the
    sequence of live elements.  Positions are 1-based, as in the source: position `i`
    is element `i - 1` of the sequence, its parent is `i / 2`. */
module HeapOrder {

  /** A pointer to a job together with the `_id` that the heap compares. */
  datatype Entry<T> = Entry(id: nat, job: T)

  function Swap<T>(s: seq<Entry<T>>, p: nat, c: nat): (r: seq<Entry<T>>)
    requires 1 <= p <= |s| && 1 <= c <= |s|
  {
    s[p - 1 := s[c - 1]][c - 1 := s[p - 1]]
  }

  /** `heapify_up` from position `c`. */
  function SiftUp<T>(s: seq<Entry<T>>, c: nat): (r: seq<Entry<T>>)
    requires 1 <= c <= |s|
    ensures |r| == |s|
    decreases c
  {
    if c > 1 && s[c / 2 - 1].id > s[c - 1].id then SiftUp(Swap(s, c / 2, c), c / 2) else s
  }

  function SmallerChild<T>(s: seq<Entry<T>>, p: nat): (c: nat)
    requires 1 <= p && 2 * p <= |s|
  {
    if 2 * p + 1 <= |s| && s[2 * p - 1].id > s[2 * p].id then 2 * p + 1 else 2 * p
  }

  /** `heapify_down` from position `p`: the element at `p` is never compared with its
      children, it sinks along the path of smaller children down to a leaf. */
  function SiftDown<T>(s: seq<Entry<T>>, p: nat): (r: seq<Entry<T>>)
    requires 1 <= p
    ensures |r| == |s|
    decreases |s| - p
  {
    if 2 * p <= |s| then SiftDown(Swap(s, p, SmallerChild(s, p)), SmallerChild(s, p)) else s
  }

  /** The leaf at which the path of smaller children that starts at `p` ends. */
  function Leaf<T>(s: seq<Entry<T>>, p: nat): (leaf: nat)
    requires 1 <= p <= |s|
    ensures p <= leaf <= |s| < 2 * leaf
    decreases |s| - p
  {
    if 2 * p <= |s| then Leaf(s, SmallerChild(s, p)) else p
  }

  function AfterInsert<T>(s: seq<Entry<T>>, e: Entry<T>): (r: seq<Entry<T>>)
    ensures |r| == |s| + 1
  {
    SiftUp(s + [e], |s| + 1)
  }

  /** The array just before `heapify_down(1)` in `extract_min`: the last element has
      been copied over the root. */
  function LastOverRoot<T>(s: seq<Entry<T>>): (r: seq<Entry<T>>)
    requires |s| >= 2
    ensures |r| == |s| - 1
  {
    s[..|s| - 1][0 := s[|s| - 1]]
  }

  function AfterExtractMin<T>(s: seq<Entry<T>>): (r: seq<Entry<T>>)
    requires s != []
    ensures |r| == |s| - 1
  {
    if |s| == 1 then [] else SiftDown(LastOverRoot(s), 1)
  }

  function AfterExtractLast<T>(s: seq<Entry<T>>): (r: seq<Entry<T>>)
    requires s != []
  {
    s[..|s| - 1]
  }
}
