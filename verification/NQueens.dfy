/** The backtracking of nqueens.cpp.  `solve` has no base case; the pigeonhole principle
    stops it at column n. */
module NQueens {

  function Abs(x: int): (r: int)
    ensures r >= 0 && (r == x || r == -x)
  {
    if x < 0 then -x else x
  }

  /** The queen in column `j` attacks row `i` of column `col`. */
  predicate Attack(hist: seq<int>, col: int, i: int, j: int)
    requires 0 <= j < |hist|
  {
    hist[j] == i || Abs(hist[j] - i) == col - j
  }

  predicate Attacked(hist: seq<int>, i: int)
  {
    exists j :: 0 <= j < |hist| && Attack(hist, |hist|, i, j)
  }

  // ---------------------------------------------------------------- what is to be found

  /** Mutually non-attacking queens in the first columns of an n times n board. */
  predicate Peaceful(q: seq<int>, n: nat)
  {
    && (forall a :: 0 <= a < |q| ==> 0 <= q[a] < n)
    && (forall a, b :: 0 <= a < b < |q| ==> q[a] != q[b] && q[a] - q[b] != b - a && q[b] - q[a] != b - a)
  }

  predicate Solution(q: seq<int>, n: nat)
  {
    |q| == n && Peaceful(q, n)
  }

  predicate LexLess(a: seq<int>, b: seq<int>)
  {
    exists k :: 0 <= k < |a| && k < |b| && a[..k] == b[..k] && a[k] < b[k]
  }

  /** The solutions that extend `prefix`, as the search meets them. */
  function All(prefix: seq<int>, n: nat): seq<seq<int>>
    requires |prefix| <= n
    decreases n - |prefix|, n + 1
  {
    if |prefix| == n then [prefix] else Rows(prefix, n, n)
  }

  /** Those with a queen above row `i` in the next column. */
  function Rows(prefix: seq<int>, n: nat, i: nat): seq<seq<int>>
    requires |prefix| < n && i <= n
    decreases n - |prefix|, i
  {
    if i == 0 then []
    else Rows(prefix, n, i - 1) + if Attacked(prefix, i - 1) then [] else All(prefix + [i - 1], n)
  }

  // ---------------------------------------------------------------- the program

  /** The inner loop: the first column whose queen attacks row `i`, or `col`. */
  method FirstAttacker(hist: array<int>, col: nat, i: int) returns (j: nat)
    requires col <= hist.Length
    ensures j <= col && (j < col <==> Attacked(hist[..col], i))
    ensures j < col ==> Attack(hist[..col], col, i, j)
    ensures forall k :: 0 <= k < j ==> !Attack(hist[..col], col, i, k)
  {
    j := 0;
    while j < col && !(hist[j] == i || Abs(hist[j] - i) == col - j)
      invariant j <= col
      invariant forall k :: 0 <= k < j ==> !Attack(hist[..col], col, i, k)
    {
      j := j + 1;
    }
    ghost var prefix := hist[..col];
    assert j < col ==> Attack(prefix, |prefix|, i, j);
  }

  lemma {:induction false} RowsStart(prefix: seq<int>, n: nat)
    requires |prefix| <= n
    ensures All(prefix, n) == if |prefix| == n then [prefix] else Rows(prefix, n, n)
    ensures |prefix| < n ==> Rows(prefix, n, 0) == []
  {
  }

  lemma {:induction false} RowsNext(prefix: seq<int>, n: nat, i: nat)
    requires |prefix| < n && i < n
    ensures Rows(prefix, n, i + 1) == if Attacked(prefix, i) then Rows(prefix, n, i)
            else Rows(prefix, n, i) + All(prefix + [i], n)
  {
  }

  /** One call of `solve`.  The source does nothing with the placements it completes; here
      `visited` records the contents of `hist` at every entry with col == n. */
  method Solve(hist: array<int>, n: nat, col: nat, visited: seq<seq<int>>) returns (seen: seq<seq<int>>)
    requires hist.Length == n && col <= n && Peaceful(hist[..col], n)
    modifies hist
    ensures hist[..col] == old(hist[..col])
    ensures seen == visited + All(old(hist[..col]), n)
    decreases n - col
  {
    hide Peaceful, Attacked, All, Rows;
    ghost var prefix := hist[..col];
    RowsStart(prefix, n);
    seen := visited;
    if col == n {
      seen := seen + [hist[..]];
      assert hist[..] == prefix;
    }
    for i := 0 to n
      invariant hist[..col] == prefix
      invariant seen == visited + if col == n then [prefix] else Rows(prefix, n, i)
    {
      if col < n {
        RowsNext(prefix, n, i);
      }
      var j := FirstAttacker(hist, col, i);
      if j < col {
        continue;
      }
      if col == n {
        LastColumnIsAttacked(prefix, n, i);
      }
      hist[col] := i;
      assert hist[..col + 1] == prefix + [i];
      UnattackedIsPeaceful(prefix, n, i);
      seen := Solve(hist, n, col + 1, seen);
      assert hist[..col] == hist[..col + 1][..col];
    }
  }

  /** The job that the main program forks and joins. */
  method SolveAll(n: nat) returns (seen: seq<seq<int>>)
    ensures forall q :: q in seen <==> Solution(q, n)
    ensures forall a, b :: 0 <= a < b < |seen| ==> LexLess(seen[a], seen[b]) && seen[a] != seen[b]
  {
    var vec := new int[n];
    assert vec[..0] == [];
    seen := Solve(vec, n, 0, []);
    assert [] + All([], n) == All([], n);
    forall q
      ensures q in seen <==> Solution(q, n)
    {
      AllAreSolutions([], n, q);
    }
    AllAscend([], n);
    LexLessIsStrict(seen);
  }

  lemma LexLessIsStrict(s: seq<seq<int>>)
    requires forall a, b :: 0 <= a < b < |s| ==> LexLess(s[a], s[b])
    ensures forall a, b :: 0 <= a < b < |s| ==> s[a] != s[b]
  {
  }

  // ---------------------------------------------------------------- pigeonhole

  lemma {:induction false} ElementsOfDistinct(q: seq<int>)
    requires forall a, b :: 0 <= a < b < |q| ==> q[a] != q[b]
    ensures |set x | x in q| == |q|
    decreases |q|
  {
    if q != [] {
      var n := |q| - 1;
      ElementsOfDistinct(q[..n]);
      assert (set x | x in q) == (set x | x in q[..n]) + {q[n]};
    }
  }

  function Range(n: nat): (r: set<int>)
    ensures |r| == n
    ensures forall x :: x in r <==> 0 <= x < n
  {
    if n == 0 then {} else Range(n - 1) + {n - 1}
  }

  lemma SubsetOfSameSize(a: set<int>, b: set<int>)
    requires a <= b && |a| == |b|
    ensures a == b
  {
    assert |b - a| == |b| - |a|;
  }

  /** n pairwise distinct rows in 0..n-1 cover all rows, so in column n every row is
      attacked, `hist[n]` is never written and the recursion ends. */
  lemma LastColumnIsAttacked(q: seq<int>, n: nat, i: nat)
    requires Solution(q, n) && i < n
    ensures Attacked(q, i)
  {
    var rows := set x | x in q;
    ElementsOfDistinct(q);
    SubsetOfSameSize(rows, Range(n));
    assert i in rows;
    var j :| 0 <= j < |q| && q[j] == i;
    assert Attack(q, |q|, i, j);
  }

  // ---------------------------------------------------------------- exactly the solutions

  lemma PeacefulExtends(q: seq<int>, n: nat, i: nat)
    requires Peaceful(q, n) && i < n
    ensures Peaceful(q + [i], n) <==> !Attacked(q, i)
  {
    var r := q + [i];
    if Peaceful(r, n) {
      forall j | 0 <= j < |q|
        ensures !Attack(q, |q|, i, j)
      {
        assert r[j] == q[j] && r[|q|] == i;
      }
    }
    if !Attacked(q, i) {
      forall a, b | 0 <= a < b < |r|
        ensures r[a] != r[b] && r[a] - r[b] != b - a && r[b] - r[a] != b - a
      {
        if b == |q| {
          assert !Attack(q, |q|, i, a);
        }
      }
    }
  }

  lemma PeacefulPrefix(q: seq<int>, n: nat, k: nat)
    requires Peaceful(q, n) && k <= |q|
    ensures Peaceful(q[..k], n)
  {
  }

  /** Soundness and completeness of the enumeration, for every start of the search. */
  lemma {:induction false} AllAreSolutions(prefix: seq<int>, n: nat, q: seq<int>)
    requires |prefix| <= n && Peaceful(prefix, n)
    ensures q in All(prefix, n) <==> Solution(q, n) && prefix <= q
    decreases n - |prefix|, n + 1
  {
    if |prefix| == n {
      assert Solution(q, n) && prefix <= q ==> q == prefix;
    } else {
      RowsAreSolutions(prefix, n, n, q);
    }
  }

  lemma {:induction false} RowsAreSolutions(prefix: seq<int>, n: nat, i: nat, q: seq<int>)
    requires |prefix| < n && i <= n && Peaceful(prefix, n)
    ensures q in Rows(prefix, n, i) <==> Solution(q, n) && prefix <= q && q[|prefix|] < i
    decreases n - |prefix|, i
  {
    if i > 0 {
      RowsAreSolutions(prefix, n, i - 1, q);
      ExtendsBy(prefix, i - 1, q);
      if Attacked(prefix, i - 1) {
        AttackedIsNoSolution(prefix, n, i - 1, q);
      } else {
        var next := prefix + [i - 1];
        UnattackedIsPeaceful(prefix, n, i - 1);
        AllAreSolutions(next, n, q);
      }
    }
  }

  lemma UnattackedIsPeaceful(q: seq<int>, n: nat, i: nat)
    requires Peaceful(q, n) && i < n && !Attacked(q, i)
    ensures Peaceful(q + [i], n)
  {
    PeacefulExtends(q, n, i);
  }

  lemma ExtendsBy(prefix: seq<int>, i: int, q: seq<int>)
    ensures prefix + [i] <= q <==> prefix <= q && |q| > |prefix| && q[|prefix|] == i
  {
    if prefix + [i] <= q {
      assert q[|prefix|] == (prefix + [i])[|prefix|];
    }
  }

  lemma AttackedIsNoSolution(prefix: seq<int>, n: nat, i: nat, q: seq<int>)
    requires Peaceful(prefix, n) && i < n && Attacked(prefix, i)
    ensures !(Solution(q, n) && prefix + [i] <= q)
  {
    PeacefulExtends(prefix, n, i);
    if |prefix| < |q| {
      assert prefix + [i] <= q ==> q[..|prefix| + 1] == prefix + [i];
      if Solution(q, n) {
        PeacefulPrefix(q, n, |prefix| + 1);
      }
    }
  }

  // ---------------------------------------------------------------- the order

  /** Each solution is met once, in lexicographic order. */
  lemma {:induction false} AllAscend(prefix: seq<int>, n: nat)
    requires |prefix| <= n && Peaceful(prefix, n)
    ensures Ascends(All(prefix, n))
    decreases n - |prefix|, n + 1
  {
    if |prefix| < n {
      RowsAscend(prefix, n, n);
    }
  }

  ghost predicate Ascends(s: seq<seq<int>>)
  {
    forall a, b {:trigger LexLess(s[a], s[b])} :: 0 <= a < b < |s| ==> LexLess(s[a], s[b])
  }

  lemma AscendsConcat(s: seq<seq<int>>, t: seq<seq<int>>)
    requires Ascends(s) && Ascends(t)
    requires forall a, b :: a in s && b in t ==> LexLess(a, b)
    ensures Ascends(s + t)
  {
  }

  lemma {:induction false} RowsAscend(prefix: seq<int>, n: nat, i: nat)
    requires |prefix| < n && i <= n && Peaceful(prefix, n)
    ensures Ascends(Rows(prefix, n, i))
    decreases n - |prefix|, i
  {
    if i > 0 {
      RowsAscend(prefix, n, i - 1);
      if !Attacked(prefix, i - 1) {
        UnattackedIsPeaceful(prefix, n, i - 1);
        AllAscend(prefix + [i - 1], n);
        RowAfterRows(prefix, n, i - 1);
      }
    }
  }

  lemma RowAfterRows(prefix: seq<int>, n: nat, i: nat)
    requires |prefix| < n && i < n && Peaceful(prefix, n) && Peaceful(prefix + [i], n)
    requires Ascends(Rows(prefix, n, i)) && Ascends(All(prefix + [i], n))
    ensures Ascends(Rows(prefix, n, i) + All(prefix + [i], n))
  {
    var before, here := Rows(prefix, n, i), All(prefix + [i], n);
    forall a, b | a in before && b in here
      ensures LexLess(a, b)
    {
      SmallerRowFirst(prefix, n, i, a, b);
    }
    AscendsConcat(before, here);
  }

  lemma SmallerRowFirst(prefix: seq<int>, n: nat, i: nat, a: seq<int>, b: seq<int>)
    requires |prefix| < n && i < n && Peaceful(prefix, n) && Peaceful(prefix + [i], n)
    requires a in Rows(prefix, n, i) && b in All(prefix + [i], n)
    ensures LexLess(a, b)
  {
    RowsAreSolutions(prefix, n, i, a);
    AllAreSolutions(prefix + [i], n, b);
    LexByRow(prefix, i, a, b);
  }

  lemma LexByRow(prefix: seq<int>, i: nat, a: seq<int>, b: seq<int>)
    requires prefix + [i] <= b && prefix <= a && |a| > |prefix| && a[|prefix|] < i
    ensures LexLess(a, b)
  {
    var k := |prefix|;
    assert b[k] == (prefix + [i])[k] == i;
    assert a[..k] == prefix == b[..k];
  }
}
