/** How many jobs par_fib makes, and what follows from it: with few enough of them no VP can
    suspend so many that fork runs one inline, whatever the schedule. */
module FibonacciBound {
  import opened Options
  import opened Scheduler
  import opened SchedulerInvariant
  import opened SchedulerResults
  import opened F = Fibonacci

  /** The calls under a call with argument `m`, its own included; one with no children counts as
      `leaf`. */
  function CallCount(m: int, leaf: nat): (count: nat)
    ensures leaf >= 1 || m >= 2 ==> count >= 1
    decreases if m < 0 then 0 else m
  {
    if m < 2 then leaf else 1 + CallCount(m - 1, leaf) + CallCount(m - 2, leaf)
  }

  /** All jobs of a call. */
  function JobCount(m: int): nat
  {
    CallCount(m, 1)
  }

  /** Those that fork and join, so that they can be suspended. */
  function InnerCount(m: int): nat
  {
    CallCount(m, 0)
  }

  lemma {:induction false} CountsAreFib(m: nat)
    ensures JobCount(m) == 2 * Fib(m + 1) - 1
    ensures InnerCount(m) == Fib(m + 1) - 1
    decreases m
  {
    if m >= 2 {
      CountsAreFib(m - 1);
      CountsAreFib(m - 2);
    }
  }

  lemma {:induction false} CallCountGrows(m: int, k: int, leaf: nat)
    requires m <= k && leaf <= 1
    ensures CallCount(m, leaf) <= CallCount(k, leaf)
    decreases k - m
  {
    if m < k {
      CallCountGrows(m, k - 1, leaf);
    }
  }

  // ---------------------------------------------------------------- shares

  /** A job and all the jobs that will come out of what its code has not done yet. */
  function Share(l: Local, leaf: nat): (share: nat)
    ensures leaf >= 1 || l.arg >= 2 ==> share >= 1
  {
    match l.at
    case Begin => CallCount(l.arg, leaf)
    case LeftForked => 1 + CallCount(l.arg - 2, leaf)
    case _ => if l.arg < 2 then leaf else 1
  }

  /** The shares of the jobs numbered below `b`. */
  function Shares(locals: map<JobId, Local>, b: nat, leaf: nat): nat
  {
    if b == 0 then 0 else Shares(locals, b - 1, leaf) + if b - 1 in locals then Share(locals[b - 1], leaf) else 0
  }

  lemma {:induction false} SharesUpdate(locals: map<JobId, Local>, j: JobId, l: Local, b: nat, leaf: nat)
    ensures Shares(locals[j := l], b, leaf)
         == Shares(locals, b, leaf)
          + if j < b then Share(l, leaf) - (if j in locals then Share(locals[j], leaf) else 0) else 0
    decreases b
  {
    if b > 0 {
      SharesUpdate(locals, j, l, b - 1, leaf);
    }
  }

  lemma {:induction false} SharesGrow(locals: map<JobId, Local>, b: nat, b': nat, leaf: nat)
    requires b <= b'
    ensures Shares(locals, b, leaf) <= Shares(locals, b', leaf)
    decreases b' - b
  {
    if b < b' {
      SharesGrow(locals, b, b' - 1, leaf);
    }
  }

  lemma {:induction false} SharesShrink(locals: map<JobId, Local>, locals': map<JobId, Local>, b: nat, leaf: nat)
    requires locals'.Keys == locals.Keys
    requires forall j :: j in locals ==> Share(locals'[j], leaf) <= Share(locals[j], leaf)
    ensures Shares(locals', b, leaf) <= Shares(locals, b, leaf)
    decreases b
  {
    if b > 0 {
      SharesShrink(locals, locals', b - 1, leaf);
    }
  }

  /** The jobs numbered below `b`, or only those with children to fork. */
  function Counted(locals: map<JobId, Local>, b: nat, leaf: nat): set<JobId>
  {
    set j | j in locals && j < b && (leaf >= 1 || locals[j].arg >= 2)
  }

  lemma {:induction false} SharesCount(locals: map<JobId, Local>, b: nat, leaf: nat)
    ensures |Counted(locals, b, leaf)| <= Shares(locals, b, leaf)
    decreases b
  {
    if b == 0 {
      assert Counted(locals, b, leaf) == {};
    } else {
      SharesCount(locals, b - 1, leaf);
      var j := b - 1;
      assert Counted(locals, b, leaf)
          == Counted(locals, j, leaf) + if j in locals && (leaf >= 1 || locals[j].arg >= 2) then {j} else {};
    }
  }

  // ---------------------------------------------------------------- conservation

  /** The jobs there are and those still to come are never more than the call makes. */
  ghost predicate WithinCount(f: Program, leaf: nat)
  {
    if f.main.MainBegin? then f.locals == map[]
    else forall b: nat {:trigger Shares(f.locals, b, leaf)} :: Shares(f.locals, b, leaf) <= CallCount(f.n, leaf)
  }

  /** A fork splits the share of the forking job. */
  lemma ForkSplitsShare(f: Program, v: nat, child: JobId, leaf: nat)
    requires Correct(f) && v < |f.s.vps| && Allowed(f, v, Sched(Fork(child))) && Last(f.s.vps[v].frames).Body?
    requires WithinCount(f, leaf)
    ensures WithinCount(Do(f, v, Sched(Fork(child))), leaf)
  {
    var g := Do(f, v, Sched(Fork(child)));
    ForkShape(f, g, v, child);
    assert child !in f.locals && g.n == f.n;
    var j := Last(f.s.vps[v].frames).job;
    var l := f.locals[j];
    assert LocalOk(f.s.jobs, f.locals, j, l);
    var locals1 := f.locals[child := NewLocal(ChildArg(l))];
    assert Share(NewLocal(ChildArg(l)), leaf) + Share(AfterFork(l, child), leaf) == Share(l, leaf);
    hide Do, DoFork;
    forall b: nat
      ensures Shares(g.locals, b, leaf) <= CallCount(f.n, leaf)
    {
      var all := b + j + child + 1;
      SharesGrow(g.locals, b, all, leaf);
      SharesUpdate(f.locals, child, NewLocal(ChildArg(l)), all, leaf);
      SharesUpdate(locals1, j, AfterFork(l, child), all, leaf);
    }
  }

  lemma FirstFork(f: Program, v: nat, child: JobId, leaf: nat)
    requires v < |f.s.vps| && Allowed(f, v, Sched(Fork(child))) && Last(f.s.vps[v].frames).MainCode?
    requires WithinCount(f, leaf)
    ensures WithinCount(Do(f, v, Sched(Fork(child))), leaf)
  {
    var g := Do(f, v, Sched(Fork(child)));
    forall b: nat
      ensures Shares(g.locals, b, leaf) <= CallCount(f.n, leaf)
    {
      SharesUpdate(f.locals, child, NewLocal(f.n), b, leaf);
      NoShares(b, leaf);
    }
  }

  lemma {:induction false} NoShares(b: nat, leaf: nat)
    ensures Shares(map[], b, leaf) == 0
  {
    if b > 0 {
      NoShares(b - 1, leaf);
    }
  }

  /** All other events keep or give up shares. */
  lemma OthersGiveUp(f: Program, v: nat, e: Event, j: JobId, leaf: nat)
    requires Correct(f) && v < |f.s.vps| && Allowed(f, v, e) && j in f.locals
    requires e.Sched? ==> !e.a.Fork?
    ensures var g := Do(f, v, e);
            g.locals.Keys == f.locals.Keys && g.n == f.n && Share(g.locals[j], leaf) <= Share(f.locals[j], leaf)
  {
    var g := Do(f, v, e);
    if e == Sched(Advance) && ReturnsFromJoin(f.s, f.s.vps[v]) {
      CallerReady(f, v);
      JoinReturnDo(f, g, v);
    }
  }

  lemma EventWithinCount(f: Program, v: nat, e: Event, leaf: nat)
    requires Correct(f) && v < |f.s.vps| && Allowed(f, v, e) && WithinCount(f, leaf)
    ensures WithinCount(Do(f, v, e), leaf)
  {
    if e.Sched? && e.a.Fork? {
      TopLocal(f, v);
      if Last(f.s.vps[v].frames).Body? {
        ForkSplitsShare(f, v, e.a.child, leaf);
      } else {
        FirstFork(f, v, e.a.child, leaf);
      }
    } else {
      var g := Do(f, v, e);
      StaysBegun(f, v, e);
      forall j | j in f.locals
        ensures g.locals.Keys == f.locals.Keys && Share(g.locals[j], leaf) <= Share(f.locals[j], leaf)
      {
        OthersGiveUp(f, v, e, j, leaf);
      }
      hide Do, Allowed, Share;
      forall b: nat
        ensures Shares(g.locals, b, leaf) <= Shares(f.locals, b, leaf)
      {
        SharesShrink(f.locals, g.locals, b, leaf);
      }
    }
  }

  lemma StaysBegun(f: Program, v: nat, e: Event)
    requires v < |f.s.vps| && Allowed(f, v, e) && Correct(f)
    requires e.Sched? ==> !e.a.Fork?
    ensures var g := Do(f, v, e);
            && g.n == f.n && g.locals.Keys == f.locals.Keys
            && (g.main.MainBegin? <==> f.main.MainBegin?)
  {
    if e == Sched(Advance) && ReturnsFromJoin(f.s, f.s.vps[v]) {
      CallerReady(f, v);
      JoinReturnDo(f, Do(f, v, e), v);
    }
  }

  lemma NextWithinCount(f: Program, g: Program, leaf: nat)
    requires Correct(f) && WithinCount(f, leaf) && Next(f, g)
    ensures WithinCount(g, leaf)
  {
    var v: nat, e: Event :| v < |f.s.vps| && Allowed(f, v, e) && g == Do(f, v, e);
    EventWithinCount(f, v, e, leaf);
  }

  lemma {:induction false} RunWithinCount(vps: nat, n: int, run: seq<Program>, leaf: nat)
    requires IsFibRun(vps, n, run)
    ensures WithinCount(Last(run), leaf)
    decreases |run|
  {
    if |run| > 1 {
      PrefixIsFibRun(vps, n, run, |run| - 2);
      var before := run[..|run| - 1];
      RunWithinCount(vps, n, before, leaf);
      RunCorrect(vps, n, before);
      assert Next(run[|run| - 2], run[|run| - 1]);
      NextWithinCount(Last(before), Last(run), leaf);
    }
  }

  /** The jobs that fork and join. */
  function InnerJobs(locals: map<JobId, Local>): set<JobId>
  {
    set j | j in locals && locals[j].arg >= 2
  }

  /** In every run, at every moment, there are at most as many jobs, and as many that fork and
      join, as the call makes. */
  lemma JobsBounded(vps: nat, n: int, run: seq<Program>)
    requires IsFibRun(vps, n, run)
    ensures |Last(run).s.jobs.Keys| <= JobCount(n)
    ensures |InnerJobs(Last(run).locals)| <= InnerCount(n)
  {
    var f := Last(run);
    RunCorrect(vps, n, run);
    RunWithinCount(vps, n, run, 1);
    RunWithinCount(vps, n, run, 0);
    if f.main.MainBegin? {
      assert f.s.jobs.Keys == {} && InnerJobs(f.locals) == {};
    } else {
      var b := AboveAll(f.locals.Keys);
      assert f.s.jobs.Keys == Counted(f.locals, b, 1);
      assert InnerJobs(f.locals) == Counted(f.locals, b, 0);
      SharesCount(f.locals, b, 1);
      SharesCount(f.locals, b, 0);
    }
  }

  // ---------------------------------------------------------------- nothing is inlined

  ghost predicate Uninlined(s: State)
  {
    forall j :: j in s.jobs ==> !s.jobs[j].inlined
  }

  lemma StackUninlined(s: State, v: nat)
    requires Inv(s) && Uninlined(s) && v < |s.vps|
    ensures NothingInlined(s.vps[v].frames)
  {
    assert VpOk(s.jobs, v, s.vps[v]);
    forall x | x in s.vps[v].frames && x.Body?
      ensures !x.inlined
    {
      assert FrameOk(s.jobs, v, x);
    }
  }

  /** The jobs of the frames 2, 4, .., 2k are k different ones. */
  lemma {:induction false} StackJobs(s: State, v: nat, k: nat) returns (js: set<JobId>)
    requires Inv(s) && v < |s.vps| && 2 * k < |s.vps[v].frames|
    requires forall i :: 1 <= i <= k ==> s.vps[v].frames[2 * i].Body?
    ensures |js| == k && js <= s.jobs.Keys
    ensures forall j :: j in js ==> exists i :: 1 <= i <= k && JobOf(s.vps[v].frames[2 * i]) == Some(j)
    decreases k
  {
    js := {};
    if k > 0 {
      var rest := StackJobs(s, v, k - 1);
      var j := s.vps[v].frames[2 * k].job;
      FrameHasJob(s, v, 2 * k);
      if j in rest {
        var i :| 1 <= i <= k - 1 && JobOf(s.vps[v].frames[2 * i]) == Some(j);
        BodyUnique(s, v, 2 * i, v, 2 * k);
      }
      js := rest + {j};
      assert JobOf(s.vps[v].frames[2 * k]) == Some(j);
    }
  }

  lemma {:induction false} Subset<T>(a: set<T>, b: set<T>)
    requires a <= b
    ensures |a| <= |b|
    decreases b
  {
    if x :| x in a {
      Subset(a - {x}, b - {x});
    }
  }

  lemma BodiesAtEvenPlaces(s: State, v: nat, k: nat)
    requires Inv(s) && v < |s.vps| && |s.vps[v].frames| == 2 * k + 1 && s.vps[v].pc.User?
    requires forall i :: 0 <= i < k ==> s.vps[v].frames[2 * i + 1].Joining?
    ensures forall i :: 1 <= i <= k ==> s.vps[v].frames[2 * i].Body?
  {
    var p := s.vps[v];
    assert VpOk(s.jobs, v, p);
    forall i | 1 <= i <= k
      ensures p.frames[2 * i].Body?
    {
      assert FrameFits(v, p.frames, 2 * i);
      if i < k {
        assert p.frames[2 * i + 1].Joining? && FrameFits(v, p.frames, 2 * i + 1);
      }
    }
  }

  /** A job in a join, or about to fork, has children. */
  lemma SuspendedIsInner(f: Program, v: nat, i: nat)
    requires Correct(f) && v < |f.s.vps| && i + 1 < |f.s.vps[v].frames| && f.s.vps[v].frames[i].Body?
    requires f.s.vps[v].frames[i + 1].Joining?
    ensures f.s.vps[v].frames[i].job in InnerJobs(f.locals)
  {
    var frames, k := f.s.vps[v].frames, i + 1;
    assert VpMatches(f, f.s.vps[v]);
    assert JoinMatches(f, frames[k - 1], frames[k].target);
    var j := frames[i].job;
    assert LocalOk(f.s.jobs, f.locals, j, f.locals[j]);
  }

  lemma ForkingIsInner(f: Program, v: nat, child: JobId)
    requires Correct(f) && v < |f.s.vps| && Allowed(f, v, Sched(Fork(child))) && Last(f.s.vps[v].frames).Body?
    ensures Last(f.s.vps[v].frames).job in InnerJobs(f.locals)
  {
    TopLocal(f, v);
  }

  /** At a fork there are no more suspended jobs than jobs that fork and join. */
  lemma ContextBelowInner(vps: nat, f: Program, v: nat, child: JobId)
    requires Correct(f) && Reachable(vps, f.s) && Uninlined(f.s)
    requires v < |f.s.vps| && Allowed(f, v, Sched(Fork(child)))
    ensures |f.s.vps[v].context| <= |InnerJobs(f.locals)|
  {
    var frames, k := f.s.vps[v].frames, |f.s.vps[v].context|;
    StackUninlined(f.s, v);
    ContextAlternates(vps, f.s, v);
    BodiesAtEvenPlaces(f.s, v, k);
    var js := StackJobs(f.s, v, k);
    hide Correct, Inv, Allowed, Reachable;
    forall j | j in js
      ensures j in InnerJobs(f.locals)
    {
      var i :| 1 <= i <= k && JobOf(frames[2 * i]) == Some(j);
      if i < k {
        SuspendedIsInner(f, v, 2 * i);
      } else {
        assert Last(frames) == frames[2 * k];
        ForkingIsInner(f, v, child);
      }
    }
    Subset(js, InnerJobs(f.locals));
  }

  lemma StepUninlined(s: State, v: nat, a: Action)
    requires v < |s.vps| && Enabled(s, v, a) && Uninlined(s)
    requires a.Fork? ==> |s.vps[v].context| <= INLINE_DEPTH
    ensures Uninlined(Apply(s, v, a))
  {
  }

  /** A call of par_fib with at most 10000 jobs that fork and join inlines nothing, under every
      schedule. */
  lemma {:induction false} FewJobsInlineNothing(vps: nat, n: int, run: seq<Program>)
    requires IsFibRun(vps, n, run) && InnerCount(n) <= INLINE_DEPTH
    ensures Uninlined(Last(run).s)
    decreases |run|
  {
    if |run| > 1 {
      PrefixIsFibRun(vps, n, run, |run| - 2);
      var before := run[..|run| - 1];
      FewJobsInlineNothing(vps, n, before);
      JobsBounded(vps, n, before);
      FibRunReachable(vps, n, before);
      RunCorrect(vps, n, before);
      var f, g := Last(before), Last(run);
      assert Next(run[|run| - 2], run[|run| - 1]);
      var v: nat, e: Event :| v < |f.s.vps| && Allowed(f, v, e) && g == Do(f, v, e);
      EventUninlined(vps, f, v, e);
    }
  }

  lemma EventUninlined(vps: nat, f: Program, v: nat, e: Event)
    requires Correct(f) && Reachable(vps, f.s) && Uninlined(f.s) && |InnerJobs(f.locals)| <= INLINE_DEPTH
    requires v < |f.s.vps| && Allowed(f, v, e)
    ensures Uninlined(Do(f, v, e).s)
  {
    if e.Sched? {
      DoIsApply(f, v, e.a);
      if e.a.Fork? {
        ContextBelowInner(vps, f, v, e.a.child);
      }
      hide Do, Allowed;
      StepUninlined(f.s, v, e.a);
    }
  }

  /** That is so up to `fibonacci 19`: 6764 such jobs; the next one has 10945. */
  lemma InnerCountOfNineteen(n: int)
    ensures InnerCount(n) <= INLINE_DEPTH <==> n <= 19
  {
    assert InnerCount(3) == 2 && InnerCount(4) == 4;
    assert InnerCount(5) == 7 && InnerCount(6) == 12;
    assert InnerCount(7) == 20 && InnerCount(8) == 33;
    assert InnerCount(9) == 54 && InnerCount(10) == 88;
    assert InnerCount(11) == 143 && InnerCount(12) == 232;
    assert InnerCount(13) == 376 && InnerCount(14) == 609;
    assert InnerCount(15) == 986 && InnerCount(16) == 1596;
    assert InnerCount(17) == 2583 && InnerCount(18) == 4180;
    assert InnerCount(19) == 6764 && InnerCount(20) == 10945;
    if n <= 19 {
      CallCountGrows(n, 19, 0);
    } else {
      CallCountGrows(20, n, 0);
    }
  }
}
