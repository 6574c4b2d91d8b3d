/** Where every element of the array goes in insert and extract_min, position by position, in
    terms of the array before the call and without naming the loops. */
module HeapPositions {
  import opened HeapOrder

  // ---------------------------------------------------------------- sinking

  /** No sibling of position `k` is smaller; of equal ones the left one goes first. */
  predicate IsSmallerSibling<T>(s: seq<Entry<T>>, k: nat)
    requires 2 <= k <= |s|
  {
    if k % 2 == 0 then k == |s| || s[k - 1].id <= s[k].id else s[k - 1].id < s[k - 2].id
  }

  /** Position `k` is on the path of smaller children that starts at `p`. */
  predicate OnPath<T>(s: seq<Entry<T>>, p: nat, k: nat)
    requires 1 <= p && k <= |s|
    decreases k
  {
    k == p || (k > p && IsSmallerSibling(s, k) && OnPath(s, p, k / 2))
  }

  lemma {:induction false} PathBelow<T>(s: seq<Entry<T>>, p: nat, c: nat, k: nat)
    requires 1 <= p && 2 * p <= |s| && c == SmallerChild(s, p) && 1 <= k <= |s| && k != p
    ensures OnPath(s, p, k) <==> OnPath(s, c, k)
    decreases k
  {
    if k > p && k / 2 != p {
      PathBelow(s, p, c, k / 2);
      if k <= c {
        assert k / 2 < p;
        NotBelow(s, p, k / 2);
        NotBelow(s, c, k / 2);
      }
    } else if k > p && k / 2 == p {
      NotBelow(s, c, p);
    } else {
      NotBelow(s, c, k);
    }
  }

  lemma NotBelow<T>(s: seq<Entry<T>>, p: nat, k: nat)
    requires 1 <= p && k < p && k <= |s|
    ensures !OnPath(s, p, k)
  {
  }

  /** The path below `c` only depends on the positions below `c`. */
  lemma {:induction false} PathUnaffected<T>(s: seq<Entry<T>>, t: seq<Entry<T>>, c: nat, k: nat)
    requires 1 <= c && 1 <= k <= |s| == |t|
    requires forall i :: 2 * c <= i + 1 <= |s| ==> s[i] == t[i]
    ensures OnPath(s, c, k) <==> OnPath(t, c, k)
    decreases k
  {
    if k >= 2 * c {
      PathUnaffected(s, t, c, k / 2);
      assert s[k - 1] == t[k - 1];
      assert k < |s| ==> s[k] == t[k];
      assert k % 2 == 1 ==> s[k - 2] == t[k - 2];
    } else if k > c {
      NotBelow(s, c, k / 2);
      NotBelow(t, c, k / 2);
    }
  }

  lemma {:induction false} SiftDownAt<T>(s: seq<Entry<T>>, p: nat, k: nat)
    requires 1 <= p <= |s| && 1 <= k <= |s|
    ensures !OnPath(s, p, k) ==> SiftDown(s, p)[k - 1] == s[k - 1]
    ensures OnPath(s, p, k) && k != p ==> SiftDown(s, p)[k / 2 - 1] == s[k - 1]
    ensures OnPath(s, p, k) && 2 * k > |s| ==> SiftDown(s, p)[k - 1] == s[p - 1]
    decreases |s| - p
  {
    if 2 * p <= |s| {
      var c := SmallerChild(s, p);
      var t := Swap(s, p, c);
      NotBelow(t, c, p);
      SiftDownAt(t, c, p);
      SiftDownAt(t, c, k);
      if k != p {
        PathBelow(s, p, c, k);
        PathUnaffected(s, t, c, k);
      }
      SmallerChildOnPath(s, p);
    } else if k > p {
      NotBelow(s, p, k / 2);
    }
  }

  lemma SmallerChildOnPath<T>(s: seq<Entry<T>>, p: nat)
    requires 1 <= p && 2 * p <= |s|
    ensures OnPath(s, p, SmallerChild(s, p))
  {
    assert OnPath(s, p, p);
  }

  /** Exactly one child of a position on the path is on it too, if it has children. */
  lemma PathGoesOn<T>(s: seq<Entry<T>>, p: nat, k: nat)
    requires 1 <= p <= k && 2 * k <= |s| && OnPath(s, p, k)
    ensures OnPath(s, p, 2 * k) <==> !(2 * k + 1 <= |s| && OnPath(s, p, 2 * k + 1))
  {
  }

  /** Slot by slot: extract_min drops the root and the last slot.  Off the path of smaller children
      from the root nothing moves; along it every element goes up one place; the element of the
      last slot comes to the end of the path. */
  lemma ExtractMinAt<T>(s: seq<Entry<T>>, k: nat)
    requires 1 <= k < |s|
    ensures var r, rest := AfterExtractMin(s), s[..|s| - 1];
            && |r| == |rest|
            && (!OnPath(rest, 1, k) ==> r[k - 1] == s[k - 1])
            && (OnPath(rest, 1, k) && k != 1 ==> r[k / 2 - 1] == s[k - 1])
            && (OnPath(rest, 1, k) && 2 * k > |rest| ==> r[k - 1] == s[|s| - 1])
  {
    PathUnaffected(s[..|s| - 1], LastOverRoot(s), 1, k);
    SiftDownAt(LastOverRoot(s), 1, k);
  }

  /** extract_last takes the last slot and leaves the others. */
  lemma ExtractLastAt<T>(s: seq<Entry<T>>)
    requires s != []
    ensures AfterExtractLast(s) + [s[|s| - 1]] == s
  {
    assert s[..|s| - 1] + [s[|s| - 1]] == s;
  }

  // ---------------------------------------------------------------- rising

  /** How far an element with this id rises from position `c`: to the first position whose parent
      is no larger. */
  function RiseTo<T>(s: seq<Entry<T>>, c: nat, id: nat): (top: nat)
    requires 1 <= c <= |s|
    ensures 1 <= top <= c
    decreases c
  {
    if c == 1 || s[c / 2 - 1].id <= id then c else RiseTo(s, c / 2, id)
  }

  /** Position `k` is `c` or above it. */
  predicate IsAbove(k: nat, c: nat)
    decreases c
  {
    k == c || (1 < c && IsAbove(k, c / 2))
  }

  lemma {:induction false} AboveIsSmaller(k: nat, c: nat)
    requires IsAbove(k, c)
    ensures k <= c
    decreases c
  {
    if k != c {
      AboveIsSmaller(k, c / 2);
    }
  }

  lemma {:induction false} RiseUnaffected<T>(s: seq<Entry<T>>, t: seq<Entry<T>>, c: nat, id: nat)
    requires 1 <= c <= |s| == |t| && forall i :: 0 <= i < c / 2 ==> s[i] == t[i]
    ensures RiseTo(s, c, id) == RiseTo(t, c, id)
    decreases c
  {
    if c > 1 && s[c / 2 - 1].id > id {
      RiseUnaffected(s, t, c / 2, id);
    }
  }

  lemma AboveOnce(k: nat, c: nat)
    requires c > 1
    ensures IsAbove(k, c) <==> k == c || IsAbove(k, c / 2)
    ensures IsAbove(k, c / 2) ==> k <= c / 2 < c
  {
    if IsAbove(k, c / 2) {
      AboveIsSmaller(k, c / 2);
    }
  }

  /** Where the element of slot `k` ends, when the one of slot `c` has risen to `top`. */
  ghost predicate Risen<T>(s: seq<Entry<T>>, r: seq<Entry<T>>, c: nat, top: nat, k: nat, above: bool)
    requires 1 <= top <= c <= |s| == |r| && 1 <= k <= |s|
  {
    && r[top - 1] == s[c - 1]
    && (above && k > top ==> r[k - 1] == s[k / 2 - 1])
    && (!above || k < top ==> r[k - 1] == s[k - 1])
  }

  lemma RisenOnce<T>(s: seq<Entry<T>>, r: seq<Entry<T>>, c: nat, top: nat, k: nat, above: bool)
    requires 1 < c <= |s| == |r| && 1 <= top <= c / 2 && 1 <= k <= |s|
    requires (above ==> k <= c / 2) && (k == c / 2 ==> above)
    requires Risen(Swap(s, c / 2, c), r, c / 2, top, k, above)
    ensures Risen(s, r, c, top, k, k == c || above)
  {
    var t := Swap(s, c / 2, c);
    assert forall i :: 0 <= i < |s| && i != c - 1 && i != c / 2 - 1 ==> t[i] == s[i];
  }

  /** heapify_up slot by slot: the element of slot `c` comes to where it rises to, every element it
      passes goes down one place, and nothing else moves. */
  lemma {:induction false} SiftUpAt<T>(s: seq<Entry<T>>, c: nat, k: nat)
    requires 1 <= c <= |s| && 1 <= k <= |s|
    ensures Risen(s, SiftUp(s, c), c, RiseTo(s, c, s[c - 1].id), k, IsAbove(k, c))
    decreases c
  {
    if c > 1 && s[c / 2 - 1].id > s[c - 1].id {
      var p := c / 2;
      var t := Swap(s, p, c);
      RiseUnaffected(s, t, p, s[c - 1].id);
      SiftUpAt(t, p, k);
      AboveOnce(k, c);
      RisenOnce(s, SiftUp(t, p), c, RiseTo(t, p, t[p - 1].id), k, IsAbove(k, p));
    } else if IsAbove(k, c) {
      AboveIsSmaller(k, c);
    }
  }

  /** So with insert, which starts from a new last slot. */
  lemma InsertAt<T>(s: seq<Entry<T>>, e: Entry<T>, k: nat)
    requires 1 <= k <= |s| + 1
    ensures var r, n := AfterInsert(s, e), |s| + 1;
            var top := RiseTo(s + [e], n, e.id);
            && r[top - 1] == e
            && (IsAbove(k, n) && k > top ==> r[k - 1] == s[k / 2 - 1])
            && (!IsAbove(k, n) || k < top ==> k <= |s| && r[k - 1] == s[k - 1])
  {
    SiftUpAt(s + [e], |s| + 1, k);
  }
}
