/** The forked merge sort in steps with at most one write to the shared array.  The activations of
    mergeSort form a tree; at every moment any activation that is neither waiting for its
    children nor finished may take the next step. */
module MergeTasks {
  import opened MergeSort

  /** One activation of mergeSort on the positions lo..hi of the array, by how far it has got.  A
      forking activation first creates its left child, then (`created`) its right one. */
  datatype Task =
    | Start(lo: nat, hi: nat, threads: int)
    | Parent(lo: nat, mid: nat, hi: nat, left: Task, right: Task, forked: bool, created: bool)
    | Merging(lo: nat, mid: nat, hi: nat, temp: seq<int>, i: nat, j: nat)
    | CopyingBack(lo: nat, hi: nat, temp: seq<int>, k: nat)
    | Comparing(lo: nat, hi: nat, i: nat, ordered: bool)
    | Swapping(lo: nat, hi: nat, i: nat, aux: int)
    | Done(lo: nat, hi: nat)

  /** Whose turn it is: a path down the tree. */
  datatype Turn = Here | InLeft(rest: Turn) | InRight(rest: Turn)

  datatype System = System(a: seq<int>, t: Task)

  function Middle(lo: nat, hi: nat): nat
    requires lo < hi
  {
    (lo + (hi - 1)) / 2 + 1
  }

  /** The indices of an activation lie in its segment of an array of `n` elements, and its
      children share its segment. */
  predicate Fits(t: Task, n: nat)
  {
    && t.lo <= t.hi <= n
    && match t
       case Start(_, _, _) => true
       case Parent(lo, mid, hi, left, right, _, _) =>
         && hi - lo > 3 && mid == Middle(lo, hi)
         && left.lo == lo && left.hi == mid == right.lo && right.hi == hi && Fits(left, n) && Fits(right, n)
       case Merging(lo, mid, hi, temp, i, j) => lo <= i <= mid <= j <= hi && |temp| == (i - lo) + (j - mid)
       case CopyingBack(lo, hi, temp, k) => lo <= k <= hi && |temp| == hi - lo
       case Comparing(lo, hi, i, ordered) => hi - lo <= 3 && lo <= i <= hi && (!ordered ==> hi - lo >= 2)
       case Swapping(lo, hi, i, _) => hi - lo <= 3 && lo <= i && i + 1 < hi
       case Done(_, _) => true
  }

  // ---------------------------------------------------------------- steps

  /** A parent joins both children before it merges; without forking it calls one after the
      other. */
  predicate CanAct(t: Task, turn: Turn)
  {
    match turn
    case Here =>
      !t.Done? && (t.Parent? ==> (t.forked && !t.created) || (t.left.Done? && t.right.Done?))
    case InLeft(rest) => t.Parent? && CanAct(t.left, rest)
    case InRight(rest) =>
      t.Parent? && (if t.forked then t.created else t.left.Done?) && CanAct(t.right, rest)
  }

  /** One step: at most one write to the array. */
  function Act(maxThreads: int, s: System, turn: Turn): System
    requires Fits(s.t, |s.a|) && CanAct(s.t, turn)
    decreases turn
  {
    var System(a, t) := s;
    match turn
    case InLeft(rest) =>
      var System(a', left') := Act(maxThreads, System(a, t.left), rest);
      System(a', t.(left := left'))
    case InRight(rest) =>
      var System(a', right') := Act(maxThreads, System(a, t.right), rest);
      System(a', t.(right := right'))
    case Here => ActHere(maxThreads, a, t)
  }

  function ActHere(maxThreads: int, a: seq<int>, t: Task): System
    requires Fits(t, |a|) && CanAct(t, Here)
  {
    match t
    case Start(lo, hi, threads) =>
      if hi - lo > 3 then
        var mid := Middle(lo, hi);
        System(a, Parent(lo, mid, hi, Start(lo, mid, threads + 1), Start(mid, hi, threads + 2),
          threads <= maxThreads, false))
      else System(a, Comparing(lo, hi, lo, true))
    case Parent(lo, mid, hi, _, _, forked, created) =>
      if forked && !created then System(a, t.(created := true)) else System(a, Merging(lo, mid, hi, [], lo, mid))
    case Merging(lo, mid, hi, temp, i, j) =>
      if i < mid && j < hi && a[i] > a[j] then System(a, t.(temp := temp + [a[j]], j := j + 1))
      else if i < mid then System(a, t.(temp := temp + [a[i]], i := i + 1))
      else if j < hi then System(a, t.(temp := temp + [a[j]], j := j + 1))
      else System(a, CopyingBack(lo, hi, temp, lo))
    case CopyingBack(lo, hi, temp, k) =>
      if k < hi then System(a[k := temp[k - lo]], t.(k := k + 1)) else System(a, Done(lo, hi))
    case Comparing(lo, hi, i, ordered) =>
      if i + 1 < hi then
        if a[i] > a[i + 1] then System(a[i := a[i + 1]], Swapping(lo, hi, i, a[i]))
        else System(a, Comparing(lo, hi, i + 1, true))
      else if ordered then System(a, Done(lo, hi))
      else System(a, Comparing(lo, hi, lo, ordered))
    case Swapping(lo, hi, i, aux) => System(a[i + 1 := aux], Comparing(lo, hi, i + 1, false))
  }

  ghost predicate Step(maxThreads: int, s: System, s': System)
  {
    exists turn :: Fits(s.t, |s.a|) && CanAct(s.t, turn) && s' == Act(maxThreads, s, turn)
  }

  /** Any interleaving of an activation of mergeSort on lo..hi. */
  ghost predicate IsRun(maxThreads: int, a: seq<int>, lo: nat, hi: nat, threads: int, run: seq<System>)
  {
    && lo <= hi <= |a| && run != [] && run[0] == System(a, Start(lo, hi, threads))
    && forall k :: 0 <= k < |run| - 1 ==> Step(maxThreads, run[k], run[k + 1])
  }

  // ---------------------------------------------------------------- footprints

  ghost predicate AgreeOn(a: seq<int>, b: seq<int>, lo: nat, hi: nat)
  {
    |a| == |b| && forall k :: lo <= k < hi && k < |a| ==> a[k] == b[k]
  }

  ghost predicate AgreeOutside(a: seq<int>, b: seq<int>, lo: nat, hi: nat)
  {
    |a| == |b| && forall k :: 0 <= k < |a| && !(lo <= k < hi) ==> a[k] == b[k]
  }

  /** A step writes only to the segment of the activation that takes it, and keeps the indices
      in their segments. */
  lemma {:induction false} WritesInside(maxThreads: int, s: System, turn: Turn)
    requires Fits(s.t, |s.a|) && CanAct(s.t, turn)
    ensures var s' := Act(maxThreads, s, turn);
            && AgreeOutside(s.a, s'.a, s.t.lo, s.t.hi)
            && Fits(s'.t, |s.a|) && s'.t.lo == s.t.lo && s'.t.hi == s.t.hi
    decreases turn
  {
    match turn
    case InLeft(rest) =>
      WritesInside(maxThreads, System(s.a, s.t.left), rest);
    case InRight(rest) =>
      WritesInside(maxThreads, System(s.a, s.t.right), rest);
    case Here =>
  }

  /** A step reads only the segment of the activation that takes it: on arrays that agree there
      it does the same. */
  lemma {:induction false} ReadsInside(maxThreads: int, t: Task, a: seq<int>, b: seq<int>, turn: Turn)
    requires Fits(t, |a|) && CanAct(t, turn) && AgreeOn(a, b, t.lo, t.hi)
    ensures var s, s' := Act(maxThreads, System(a, t), turn), Act(maxThreads, System(b, t), turn);
            s'.t == s.t && AgreeOn(s.a, s'.a, t.lo, t.hi)
    decreases turn
  {
    match turn
    case InLeft(rest) =>
      ReadsInside(maxThreads, t.left, a, b, rest);
      WritesInside(maxThreads, System(a, t.left), rest);
      WritesInside(maxThreads, System(b, t.left), rest);
    case InRight(rest) =>
      ReadsInside(maxThreads, t.right, a, b, rest);
      WritesInside(maxThreads, System(a, t.right), rest);
      WritesInside(maxThreads, System(b, t.right), rest);
    case Here =>
  }

  // ---------------------------------------------------------------- the shape of the tree

  /** An activation splits a segment of more than three positions into two halves, of which the
      left one may be longer by one, and forks them as long as its number is within the budget;
      its children have the next two numbers. */
  predicate IsSplitTree(maxThreads: int, t: Task, threads: int)
  {
    match t
    case Start(_, _, own) => own == threads
    case Parent(lo, mid, hi, left, right, forked, created) =>
      && hi - lo >= 4 && (mid - lo == hi - mid || mid - lo == hi - mid + 1)
      && left.lo == lo && left.hi == mid == right.lo && right.hi == hi
      && (forked <==> threads <= maxThreads)
      && IsSplitTree(maxThreads, left, threads + 1) && IsSplitTree(maxThreads, right, threads + 2)
    case Merging(lo, _, hi, _, _, _) => hi - lo >= 4
    case CopyingBack(lo, hi, _, _) => hi - lo >= 4
    case Comparing(lo, hi, _, _) => hi - lo <= 3
    case Swapping(lo, hi, _, _) => hi - lo <= 3
    case Done(_, _) => true
  }

  lemma {:induction false} StepKeepsTree(maxThreads: int, s: System, turn: Turn, threads: int)
    requires Fits(s.t, |s.a|) && CanAct(s.t, turn) && IsSplitTree(maxThreads, s.t, threads)
    ensures IsSplitTree(maxThreads, Act(maxThreads, s, turn).t, threads)
    decreases turn
  {
    match turn
    case InLeft(rest) =>
      StepKeepsTree(maxThreads, System(s.a, s.t.left), rest, threads + 1);
      WritesInside(maxThreads, System(s.a, s.t.left), rest);
    case InRight(rest) =>
      StepKeepsTree(maxThreads, System(s.a, s.t.right), rest, threads + 2);
      WritesInside(maxThreads, System(s.a, s.t.right), rest);
    case Here =>
  }

  /** At every moment of every interleaving the activations form such a tree. */
  lemma {:induction false} RunIsSplitTree(maxThreads: int, a: seq<int>, lo: nat, hi: nat, threads: int,
                                          run: seq<System>)
    requires IsRun(maxThreads, a, lo, hi, threads, run)
    ensures IsSplitTree(maxThreads, run[|run| - 1].t, threads)
    decreases |run|
  {
    if |run| > 1 {
      var before := run[..|run| - 1];
      assert IsRun(maxThreads, a, lo, hi, threads, before);
      RunIsSplitTree(maxThreads, a, lo, hi, threads, before);
      var s, s' := run[|run| - 2], run[|run| - 1];
      assert Step(maxThreads, s, s');
      var turn :| Fits(s.t, |s.a|) && CanAct(s.t, turn) && s' == Act(maxThreads, s, turn);
      StepKeepsTree(maxThreads, s, turn, threads);
    }
  }

  // ---------------------------------------------------------------- where it leads

  /** What mergeSort makes of a segment. */
  function SortOf(s: seq<int>): (r: seq<int>)
    decreases |s|
  {
    if |s| > 3 then
      var m := (|s| - 1) / 2 + 1;
      Merged(SortOf(s[..m]), SortOf(s[m..]))
    else Base(s)
  }

  lemma {:induction false} SortOfSorts(s: seq<int>)
    ensures Sorted(SortOf(s)) && multiset(SortOf(s)) == multiset(s)
    decreases |s|
  {
    if |s| > 3 {
      var m := (|s| - 1) / 2 + 1;
      SortOfSorts(s[..m]);
      SortOfSorts(s[m..]);
      MergedSorted(SortOf(s[..m]), SortOf(s[m..]));
      MergedPermutes(SortOf(s[..m]), SortOf(s[m..]));
      assert s == s[..m] + s[m..];
    } else {
      BaseSortsThree(s);
      BasePermutes(s);
    }
  }

  /** The end of the do-while loop from the end of a pass. */
  function Settled(o: Outcome): seq<int>
  {
    if o.ordered then o.s else Base(o.s)
  }

  /** The segment as it will be once a swap that is half done is complete. */
  function Intended(a: seq<int>, t: Task): (s: seq<int>)
    requires Fits(t, |a|)
    ensures |s| == t.hi - t.lo
  {
    if t.Swapping? then a[t.lo..t.hi][t.i + 1 - t.lo := t.aux] else a[t.lo..t.hi]
  }

  /** What the segment of an activation will hold when it is done. */
  function Goal(a: seq<int>, t: Task): seq<int>
    requires Fits(t, |a|)
    decreases t
  {
    match t
    case Start(lo, hi, _) => SortOf(a[lo..hi])
    case Parent(_, _, _, left, right, _, _) => Merged(Goal(a, left), Goal(a, right))
    case Merging(_, mid, hi, temp, i, j) => temp + Merged(a[i..mid], a[j..hi])
    case CopyingBack(lo, _, temp, k) => a[lo..k] + temp[k - lo..]
    case Comparing(lo, _, i, ordered) => Settled(Pass(Intended(a, t), i - lo, ordered))
    case Swapping(lo, _, i, _) => Settled(Pass(Intended(a, t), i + 1 - lo, false))
    case Done(lo, hi) => a[lo..hi]
  }

  lemma SliceAgrees(a: seq<int>, b: seq<int>, lo: nat, hi: nat)
    requires AgreeOn(a, b, lo, hi) && lo <= hi <= |a|
    ensures a[lo..hi] == b[lo..hi]
  {
  }

  /** The goal of an activation depends on its own segment only. */
  lemma {:induction false} GoalIsLocal(a: seq<int>, b: seq<int>, t: Task)
    requires Fits(t, |a|) && AgreeOn(a, b, t.lo, t.hi)
    ensures Goal(a, t) == Goal(b, t)
    decreases t
  {
    SliceAgrees(a, b, t.lo, t.hi);
    match t
    case Parent(_, _, _, left, right, _, _) =>
      GoalIsLocal(a, b, left);
      GoalIsLocal(a, b, right);
    case Merging(_, mid, hi, _, i, j) =>
      SliceAgrees(a, b, i, mid);
      SliceAgrees(a, b, j, hi);
    case CopyingBack(lo, _, _, k) =>
      SliceAgrees(a, b, lo, k);
    case _ =>
  }

  /** No step, of whichever activation in the tree, changes what the root will end with. */
  lemma {:induction false} StepKeepsGoal(maxThreads: int, s: System, turn: Turn)
    requires Fits(s.t, |s.a|) && CanAct(s.t, turn)
    ensures var s' := Act(maxThreads, s, turn);
            Fits(s'.t, |s'.a|) && Goal(s'.a, s'.t) == Goal(s.a, s.t)
    decreases turn
  {
    WritesInside(maxThreads, s, turn);
    var s' := Act(maxThreads, s, turn);
    match turn
    case InLeft(rest) =>
      StepKeepsGoal(maxThreads, System(s.a, s.t.left), rest);
      WritesInside(maxThreads, System(s.a, s.t.left), rest);
      GoalIsLocal(s.a, s'.a, s.t.right);
    case InRight(rest) =>
      StepKeepsGoal(maxThreads, System(s.a, s.t.right), rest);
      WritesInside(maxThreads, System(s.a, s.t.right), rest);
      GoalIsLocal(s.a, s'.a, s.t.left);
    case Here => OwnStepKeepsGoal(maxThreads, s.a, s.t);
  }

  lemma {:induction false} OwnStepKeepsGoal(maxThreads: int, a: seq<int>, t: Task)
    requires Fits(t, |a|) && CanAct(t, Here)
    ensures var s' := ActHere(maxThreads, a, t);
            Fits(s'.t, |s'.a|) && Goal(s'.a, s'.t) == Goal(a, t)
  {
    hide Merged, Base, Pass, SortOf;
    match t
    case Start(_, _, _) => StartKeepsGoal(maxThreads, a, t);
    case Parent(_, _, _, left, right, _, _) =>
    case Merging(_, _, _, _, _, _) => MergeKeepsGoal(maxThreads, a, t);
    case CopyingBack(_, _, _, _) => CopyKeepsGoal(maxThreads, a, t);
    case Comparing(_, _, _, _) => CompareKeepsGoal(maxThreads, a, t);
    case Swapping(lo, hi, i, aux) =>
      assert a[i + 1 := aux][lo..hi] == a[lo..hi][i + 1 - lo := aux];
    case Done(_, _) =>
  }

  lemma StartKeepsGoal(maxThreads: int, a: seq<int>, t: Task)
    requires t.Start? && Fits(t, |a|)
    ensures var s' := ActHere(maxThreads, a, t);
            Fits(s'.t, |s'.a|) && Goal(s'.a, s'.t) == Goal(a, t)
  {
    hide Merged, Base, Pass, SortOf;
    var Start(lo, hi, threads) := t;
    if hi - lo > 3 {
      var mid := Middle(lo, hi);
      var left, right := Start(lo, mid, threads + 1), Start(mid, hi, threads + 2);
      assert Goal(a, left) == SortOf(a[lo..mid]) && Goal(a, right) == SortOf(a[mid..hi]);
      SplitGoal(a, lo, hi);
    } else {
      ShortGoal(a[lo..hi]);
      assert Intended(a, Comparing(lo, hi, lo, true)) == a[lo..hi];
    }
  }

  lemma SplitGoal(a: seq<int>, lo: nat, hi: nat)
    requires lo + 3 < hi <= |a|
    ensures lo < Middle(lo, hi) < hi
    ensures SortOf(a[lo..hi]) == Merged(SortOf(a[lo..Middle(lo, hi)]), SortOf(a[Middle(lo, hi)..hi]))
  {
    hide Merged, Base;
    var s, m := a[lo..hi], (hi - lo - 1) / 2 + 1;
    assert Middle(lo, hi) == lo + m;
    assert s[..m] == a[lo..lo + m] && s[m..] == a[lo + m..hi];
  }

  lemma ShortGoal(s: seq<int>)
    requires |s| <= 3
    ensures SortOf(s) == Settled(Pass(s, 0, true))
  {
  }

  lemma CopyKeepsGoal(maxThreads: int, a: seq<int>, t: Task)
    requires t.CopyingBack? && Fits(t, |a|)
    ensures var s' := ActHere(maxThreads, a, t);
            Fits(s'.t, |s'.a|) && Goal(s'.a, s'.t) == Goal(a, t)
  {
    hide Merged, Base, Pass, SortOf;
    var CopyingBack(lo, hi, temp, k) := t;
    if k < hi {
      assert a[k := temp[k - lo]][lo..k + 1] == a[lo..k] + [temp[k - lo]];
      assert temp[k - lo..] == [temp[k - lo]] + temp[k + 1 - lo..];
    } else {
      assert a[lo..k] + temp[k - lo..] == a[lo..hi];
    }
  }

  lemma MergeKeepsGoal(maxThreads: int, a: seq<int>, t: Task)
    requires t.Merging? && Fits(t, |a|)
    ensures var s' := ActHere(maxThreads, a, t);
            Fits(s'.t, |s'.a|) && Goal(s'.a, s'.t) == Goal(a, t)
  {
    hide Merged, Base, Pass, SortOf;
    var Merging(lo, mid, hi, temp, i, j) := t;
    MergeOne(a, i, mid, j, hi);
    if i < mid && (j < hi ==> a[i] <= a[j]) {
      Prepend(temp, a[i], Merged(a[i + 1..mid], a[j..hi]));
    } else if j < hi {
      Prepend(temp, a[j], Merged(a[i..mid], a[j + 1..hi]));
    } else {
      assert a[lo..lo] + temp[0..] == temp == temp + [];
    }
  }

  lemma Prepend(s: seq<int>, x: int, t: seq<int>)
    ensures (s + [x]) + t == s + ([x] + t)
  {
  }

  /** The head that is taken is the head of the merged rest. */
  lemma MergeOne(a: seq<int>, i: nat, mid: nat, j: nat, hi: nat)
    requires i <= mid <= j <= hi <= |a|
    ensures i < mid && (j < hi ==> a[i] <= a[j]) ==>
              Merged(a[i..mid], a[j..hi]) == [a[i]] + Merged(a[i + 1..mid], a[j..hi])
    ensures j < hi && (i < mid ==> a[i] > a[j]) ==>
              Merged(a[i..mid], a[j..hi]) == [a[j]] + Merged(a[i..mid], a[j + 1..hi])
    ensures i == mid && j == hi ==> Merged(a[i..mid], a[j..hi]) == []
  {
    var x, y := a[i..mid], a[j..hi];
    if i < mid {
      assert x[1..] == a[i + 1..mid] && x == [a[i]] + x[1..];
    }
    if j < hi {
      assert y[1..] == a[j + 1..hi] && y == [a[j]] + y[1..];
    }
    if i < mid && j == hi {
      assert Merged(x[1..], y) == x[1..];
    }
    if j < hi && i == mid {
      assert Merged(x, y[1..]) == y[1..];
    }
  }

  lemma CompareKeepsGoal(maxThreads: int, a: seq<int>, t: Task)
    requires t.Comparing? && Fits(t, |a|)
    ensures var s' := ActHere(maxThreads, a, t);
            Fits(s'.t, |s'.a|) && Goal(s'.a, s'.t) == Goal(a, t)
  {
    hide Merged, Base, Pass, SortOf;
    var Comparing(lo, hi, i, ordered) := t;
    var s := a[lo..hi];
    PassOne(s, i - lo, ordered);
    if i + 1 < hi {
      if a[i] > a[i + 1] {
        assert a[i := a[i + 1]][lo..hi][i + 1 - lo := a[i]] == Order(s, i - lo);
      }
    } else if !ordered {
      RestartPass(s);
    }
  }

  /** Another pass is what the rest of the loop starts with, whatever the flag was. */
  lemma RestartPass(s: seq<int>)
    requires |s| >= 2
    ensures Settled(Pass(s, 0, false)) == Base(s)
  {
    PassOne(s, 0, false);
    PassOne(s, 0, true);
    hide Pass;
  }

  // ---------------------------------------------------------------- runs

  /** Every reachable system is on its way to the same array. */
  lemma {:induction false} RunKeepsGoal(maxThreads: int, a: seq<int>, lo: nat, hi: nat, threads: int, run: seq<System>)
    requires IsRun(maxThreads, a, lo, hi, threads, run)
    ensures var s := run[|run| - 1];
            && Fits(s.t, |s.a|) && s.t.lo == lo && s.t.hi == hi
            && AgreeOutside(a, s.a, lo, hi) && Goal(s.a, s.t) == SortOf(a[lo..hi])
    decreases |run|
  {
    if |run| > 1 {
      var before := run[..|run| - 1];
      assert IsRun(maxThreads, a, lo, hi, threads, before);
      RunKeepsGoal(maxThreads, a, lo, hi, threads, before);
      var s, s' := run[|run| - 2], run[|run| - 1];
      assert Step(maxThreads, s, s');
      var turn :| Fits(s.t, |s.a|) && CanAct(s.t, turn) && s' == Act(maxThreads, s, turn);
      WritesInside(maxThreads, s, turn);
      StepKeepsGoal(maxThreads, s, turn);
    }
  }

  /** However the activations interleave, to any depth of forking: when the root is done, its
      segment is sorted and a permutation, and nothing else has changed. */
  lemma InterleavedSortIsCorrect(maxThreads: int, a: seq<int>, lo: nat, hi: nat, threads: int, run: seq<System>)
    requires IsRun(maxThreads, a, lo, hi, threads, run) && run[|run| - 1].t.Done?
    ensures SegmentSorted(a, run[|run| - 1].a, lo, hi)
  {
    RunKeepsGoal(maxThreads, a, lo, hi, threads, run);
    SortOfSorts(a[lo..hi]);
  }

  /** So forking changes nothing: every interleaving, under every thread budget, leaves the array
      that the sequential method Sort leaves. */
  lemma InterleavedEqualsSequential(maxThreads: int, a: seq<int>, lo: nat, hi: nat, threads: int, run: seq<System>,
                                    sequential: seq<int>)
    requires IsRun(maxThreads, a, lo, hi, threads, run) && run[|run| - 1].t.Done?
    requires SegmentSorted(a, sequential, lo, hi)
    ensures run[|run| - 1].a == sequential
  {
    InterleavedSortIsCorrect(maxThreads, a, lo, hi, threads, run);
    SameResult(a, run[|run| - 1].a, sequential, lo, hi);
  }

  // ---------------------------------------------------------------- every run ends

  /** Until the root is done, some activation can act. */
  lemma {:induction false} NeverStuck(t: Task) returns (turn: Turn)
    requires !t.Done?
    ensures CanAct(t, turn)
  {
    turn := Here;
    if t.Parent? && !(t.forked && !t.created) {
      if !t.left.Done? {
        turn := NeverStuck(t.left);
        turn := InLeft(turn);
      } else if !t.right.Done? {
        turn := NeverStuck(t.right);
        turn := InRight(turn);
      }
    }
  }

  /** A bound on the steps of an activation on `n` elements. */
  function Cost(n: nat): nat
  {
    if n <= 3 then 40 else Cost((n - 1) / 2 + 1) + Cost(n - ((n - 1) / 2 + 1)) + 2 * n + 6
  }

  /** A bound on the steps that are left. */
  function Work(a: seq<int>, t: Task): nat
    requires Fits(t, |a|)
    decreases t
  {
    match t
    case Start(lo, hi, _) => Cost(hi - lo)
    case Parent(lo, _, hi, left, right, forked, created) =>
      Work(a, left) + Work(a, right) + 2 * (hi - lo) + 4 + if forked && !created then 1 else 0
    case Merging(lo, mid, hi, _, i, j) => (mid - i) + (hi - j) + (hi - lo) + 3
    case CopyingBack(_, hi, _, k) => hi - k + 1
    case Comparing(lo, hi, i, ordered) =>
      9 * (Inversions(Intended(a, t)) + if i > lo && !ordered then 1 else 0) + 2 * (hi - i) + 1
    case Swapping(lo, hi, i, _) => 9 * (Inversions(Intended(a, t)) + 1) + 2 * (hi - i)
    case Done(_, _) => 0
  }

  lemma {:induction false} WorkIsLocal(a: seq<int>, b: seq<int>, t: Task)
    requires Fits(t, |a|) && AgreeOn(a, b, t.lo, t.hi)
    ensures Work(a, t) == Work(b, t)
    decreases t
  {
    SliceAgrees(a, b, t.lo, t.hi);
    if t.Parent? {
      WorkIsLocal(a, b, t.left);
      WorkIsLocal(a, b, t.right);
    }
  }

  lemma {:induction false} SmallerBound(s: seq<int>, x: int)
    ensures Smaller(s, x) <= |s|
    decreases |s|
  {
    if s != [] {
      SmallerBound(s[1..], x);
    }
  }

  lemma FewInversions(s: seq<int>)
    requires |s| <= 3
    ensures Inversions(s) <= 3
  {
    if |s| > 0 {
      SmallerBound(s[1..], s[0]);
      if |s| > 1 {
        SmallerBound(s[1..][1..], s[1..][0]);
        if |s| > 2 {
          SmallerBound(s[1..][1..][1..], s[1..][1..][0]);
        }
      }
    }
  }

  lemma {:induction false} StepReducesWork(maxThreads: int, s: System, turn: Turn)
    requires Fits(s.t, |s.a|) && CanAct(s.t, turn)
    ensures var s' := Act(maxThreads, s, turn);
            Fits(s'.t, |s'.a|) && Work(s'.a, s'.t) < Work(s.a, s.t)
    decreases turn
  {
    WritesInside(maxThreads, s, turn);
    var s' := Act(maxThreads, s, turn);
    match turn
    case InLeft(rest) =>
      StepReducesWork(maxThreads, System(s.a, s.t.left), rest);
      WritesInside(maxThreads, System(s.a, s.t.left), rest);
      WorkIsLocal(s.a, s'.a, s.t.right);
    case InRight(rest) =>
      StepReducesWork(maxThreads, System(s.a, s.t.right), rest);
      WritesInside(maxThreads, System(s.a, s.t.right), rest);
      WorkIsLocal(s.a, s'.a, s.t.left);
    case Here => OwnStepReducesWork(maxThreads, s.a, s.t);
  }

  lemma {:induction false} OwnStepReducesWork(maxThreads: int, a: seq<int>, t: Task)
    requires Fits(t, |a|) && CanAct(t, Here)
    ensures var s' := ActHere(maxThreads, a, t);
            Fits(s'.t, |s'.a|) && Work(s'.a, s'.t) < Work(a, t)
  {
    hide Merged, Base, Pass, SortOf, Goal, Inversions, Cost;
    OwnStepKeepsGoal(maxThreads, a, t);
    match t
    case Start(_, _, _) => StartReducesWork(maxThreads, a, t);
    case Comparing(_, _, _, _) => CompareReducesWork(maxThreads, a, t);
    case Swapping(lo, hi, i, aux) =>
      assert a[i + 1 := aux][lo..hi] == a[lo..hi][i + 1 - lo := aux];
    case _ =>
  }

  lemma CostSplit(lo: nat, hi: nat)
    requires hi - lo > 3
    ensures lo < Middle(lo, hi) < hi
    ensures Cost(hi - lo) == Cost(Middle(lo, hi) - lo) + Cost(hi - Middle(lo, hi)) + 2 * (hi - lo) + 6
  {
    var m := (hi - lo - 1) / 2 + 1;
    assert Middle(lo, hi) == lo + m;
    assert hi - Middle(lo, hi) == (hi - lo) - m;
  }

  lemma StartReducesWork(maxThreads: int, a: seq<int>, t: Task)
    requires t.Start? && Fits(t, |a|)
    ensures var s' := ActHere(maxThreads, a, t);
            Fits(s'.t, |s'.a|) && Work(s'.a, s'.t) < Work(a, t)
  {
    hide Inversions, Cost, Middle;
    var Start(lo, hi, threads) := t;
    if hi - lo > 3 {
      CostSplit(lo, hi);
      var mid := Middle(lo, hi);
      assert Work(a, Start(lo, mid, threads + 1)) == Cost(mid - lo);
      assert Work(a, Start(mid, hi, threads + 2)) == Cost(hi - mid);
    } else {
      FewInversions(a[lo..hi]);
      SmallCost(hi - lo);
      assert Intended(a, Comparing(lo, hi, lo, true)) == a[lo..hi];
    }
  }

  lemma SmallCost(n: nat)
    requires n <= 3
    ensures Cost(n) == 40
  {
  }

  lemma CompareReducesWork(maxThreads: int, a: seq<int>, t: Task)
    requires t.Comparing? && Fits(t, |a|)
    ensures var s' := ActHere(maxThreads, a, t);
            Fits(s'.t, |s'.a|) && Work(s'.a, s'.t) < Work(a, t)
  {
    hide Inversions;
    var Comparing(lo, hi, i, ordered) := t;
    if i + 1 < hi && a[i] > a[i + 1] {
      assert a[i := a[i + 1]][lo..hi][i + 1 - lo := a[i]] == Order(a[lo..hi], i - lo);
      OrderReduces(a[lo..hi], i - lo);
    }
  }

  /** Every interleaving ends: no run is longer than a bound that depends only on the length of
      the segment, and a run that has not reached the end can go on. */
  lemma {:induction false} InterleavedRunsEnd(maxThreads: int, a: seq<int>, lo: nat, hi: nat, threads: int,
                                              run: seq<System>)
    requires IsRun(maxThreads, a, lo, hi, threads, run)
    ensures var s := run[|run| - 1];
            && Fits(s.t, |s.a|) && |run| - 1 + Work(s.a, s.t) <= Cost(hi - lo)
            && (s.t.Done? || exists s' :: Step(maxThreads, s, s'))
    decreases |run|
  {
    var s' := run[|run| - 1];
    if |run| > 1 {
      var before := run[..|run| - 1];
      assert IsRun(maxThreads, a, lo, hi, threads, before);
      InterleavedRunsEnd(maxThreads, a, lo, hi, threads, before);
      var s := run[|run| - 2];
      assert Step(maxThreads, s, s');
      var turn :| Fits(s.t, |s.a|) && CanAct(s.t, turn) && s' == Act(maxThreads, s, turn);
      StepReducesWork(maxThreads, s, turn);
    }
    if !s'.t.Done? {
      var turn := NeverStuck(s'.t);
      assert Step(maxThreads, s', Act(maxThreads, s', turn));
    }
  }
}
