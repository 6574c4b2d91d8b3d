/** par_fib can always be completed where nothing is inlined; on one VP that is up to 10001, and
    from there on it can hang for good. */
module FibonacciCompletion {
  import opened Scheduler
  import opened SchedulerInvariant
  import opened SchedulerResults
  import opened SchedulerWaiting
  import opened SchedulerProgress
  import opened SchedulerShutdown
  import opened SchedulerCompletion
  import opened F = Fibonacci
  import opened FibonacciBound
  import opened FibonacciReady
  import opened FibonacciDescent
  import opened FibonacciOneVp

  // ---------------------------------------------------------------- what is left to do

  /** What the code of a job still has to do, with the jobs that it will still bring about. */
  function LocalWork(l: Local): nat
  {
    100 * (Share(l, 1) - 1) + 5 * (8 - Rank(l.at))
  }

  function LocalsWork(locals: map<JobId, Local>, b: nat): nat
  {
    if b == 0 then 0 else LocalsWork(locals, b - 1) + if b - 1 in locals then LocalWork(locals[b - 1]) else 0
  }

  function MainWork(f: Program): nat
  {
    match f.main
    case MainBegin => 100 * JobCount(f.n) + 20
    case RootForked => 15
    case JoiningRoot => 10
    case RootJoined => 5
    case Ended => 0
  }

  function Remaining(f: Program, b: nat): nat
  {
    Work(f.s, b) + LocalsWork(f.locals, b) + MainWork(f)
  }

  lemma {:induction false} LocalsWorkUpdate(locals: map<JobId, Local>, j: JobId, l: Local, b: nat)
    ensures LocalsWork(locals[j := l], b)
         == LocalsWork(locals, b)
          + if j < b then LocalWork(l) - (if j in locals then LocalWork(locals[j]) else 0) else 0
    decreases b
  {
    if b > 0 {
      LocalsWorkUpdate(locals, j, l, b - 1);
    }
  }

  /** Any bound above all jobs will do. */
  lemma {:induction false} WiderBound(f: Program, b: nat, b': nat)
    requires f.locals.Keys == f.s.jobs.Keys && Below(f.s.jobs, b) && b <= b'
    ensures Remaining(f, b') == Remaining(f, b)
    decreases b' - b
  {
    if b < b' {
      WiderBound(f, b, b' - 1);
    }
  }

  // ---------------------------------------------------------------- user code

  lemma ForkLess(f: Program, v: nat, child: JobId, b: nat)
    requires Correct(f) && v < |f.s.vps| && Allowed(f, v, Sched(Fork(child))) && Below(f.s.jobs, b) && child < b
    requires |f.s.vps[v].context| <= INLINE_DEPTH
    ensures Remaining(Do(f, v, Sched(Fork(child))), b) < Remaining(f, b)
  {
    var g := Do(f, v, Sched(Fork(child)));
    TopLocal(f, v);
    ForkShape(f, g, v, child);
    ForkWork(f.s, v, child, b);
    var top := Last(f.s.vps[v].frames);
    if top.Body? {
      var l := f.locals[top.job];
      assert LocalOk(f.s.jobs, f.locals, top.job, l);
      var locals1 := f.locals[child := NewLocal(ChildArg(l))];
      LocalsWorkUpdate(f.locals, child, NewLocal(ChildArg(l)), b);
      LocalsWorkUpdate(locals1, top.job, AfterFork(l, child), b);
      assert Share(NewLocal(ChildArg(l)), 1) + Share(AfterFork(l, child), 1) == Share(l, 1);
    } else {
      LocalsWorkUpdate(f.locals, child, NewLocal(f.n), b);
    }
  }

  lemma ForkWork(s: State, v: nat, child: JobId, b: nat)
    requires v < |s.vps| && Enabled(s, v, Fork(child)) && child < b && |s.vps[v].context| <= INLINE_DEPTH
    ensures Work(DoFork(s, v, child), b) == Work(s, b) + 10
  {
    var s' := DoFork(s, v, child);
    JobsWorkUpdate(s.jobs, child, s'.jobs[child], b);
    VpsWorkUpdate(s.vps, v, s'.vps[v]);
  }

  /** All other events of user code. */
  lemma UserLess(f: Program, v: nat, e: Event, b: nat)
    requires Correct(f) && v < |f.s.vps| && Allowed(f, v, e) && InUserCode(f.s.vps[v]) && Below(f.s.jobs, b)
    requires e.Sched? ==> !e.a.Fork? && !e.a.Advance?
    requires MayRun(f, Last(f.s.vps[v].frames))
    ensures Remaining(Do(f, v, e), b) < Remaining(f, b)
  {
    var g := Do(f, v, e);
    var p := f.s.vps[v];
    if e.Sched? {
      DoIsApply(f, v, e.a);
      WorkOfVp(f.s, g.s, v, g.s.vps[v], b);
      if e.a.CallJoin? {
        JoinsOfPush(p.frames, Joining(e.a.target));
      }
    }
    TopLocal(f, v);
    if Last(p.frames).Body? {
      var j := Last(p.frames).job;
      LocalsWorkUpdate(f.locals, j, g.locals[j], b);
    }
  }

  /** What the code of the top frame does next. */
  lemma NextEvent(f: Program, v: nat) returns (e: Event)
    requires Correct(f) && v < |f.s.vps| && f.s.vps[v].pc.User? && f.s.vps[v].frames != []
    requires MayRun(f, Last(f.s.vps[v].frames))
    ensures Allowed(f, v, e) && e != Sched(Advance)
  {
    var p := f.s.vps[v];
    var child := AboveAll(f.s.jobs.Keys);
    if Last(p.frames).MainCode? {
      MainAtBottom(f.s, v, |p.frames| - 1);
      e := match f.main
           case MainBegin => Sched(Fork(child))
           case RootForked => Sched(CallJoin(f.root))
           case _ => Sched(Terminate);
    } else {
      var l := f.locals[Last(p.frames).job];
      assert LocalOk(f.s.jobs, f.locals, Last(p.frames).job, l);
      e := match l.at
           case Begin => if l.cell < 2 then Sched(Return) else Sched(Fork(child))
           case LeftForked => Sched(Fork(child))
           case BothForked => Sched(CallJoin(l.right))
           case RightJoined => Sched(CallJoin(l.left))
           case LeftJoined => WriteSum
           case _ => Sched(Return);
    }
  }

  // ---------------------------------------------------------------- scheduler actions

  lemma AdvanceLess(f: Program, v: nat, b: nat)
    requires Correct(f) && v < |f.s.vps| && Allowed(f, v, Sched(Advance)) && Below(f.s.jobs, b)
    ensures var g := Do(f, v, Sched(Advance));
            && g.s == DoAdvance(f.s, v) && g.s.jobs.Keys == f.s.jobs.Keys
            && Remaining(g, b) <= Remaining(f, b) && (Productive(f.s, v) ==> Remaining(g, b) < Remaining(f, b))
  {
    var g := Do(f, v, Sched(Advance));
    DoIsApply(f, v, Advance);
    AdvanceWorks(f.s, v, b);
    JobsAfter(f.s, v, Advance);
    if ReturnsFromJoin(f.s, f.s.vps[v]) {
      CallerReady(f, v);
      JoinReturnDo(f, g, v);
      var x := Caller(f.s.vps[v]);
      if x.Body? {
        LocalsWorkUpdate(f.locals, x.job, g.locals[x.job], b);
      }
    }
  }

  // ---------------------------------------------------------------- continued runs

  /** What holds at the end of every run in which nothing can be inlined. */
  ghost predicate Sound(vps: nat, n: int, f: Program)
  {
    && Correct(f) && ReadyToRun(f) && Uninlined(f.s) && Reachable(vps, f.s) && Acyclic(f.s)
    && |f.s.vps| == vps && f.n == n
  }

  lemma {:induction false} RunSound(vps: nat, n: int, run: seq<Program>)
    requires IsFibRun(vps, n, run) && SmallEnough(vps, n)
    ensures Sound(vps, n, Last(run))
    decreases |run|
  {
    var g := Last(run);
    RunCorrect(vps, n, run);
    SmallRunsInlineNothing(vps, n, run);
    FibRunReachable(vps, n, run);
    FibJoinsAreStrictIff(g);
    StrictIsAcyclic(g.s);
    IdleIsExact(vps, g.s);
    if |run| == 1 {
      InitialReady(g, vps);
    } else {
      PrefixIsFibRun(vps, n, run, |run| - 2);
      var before := run[..|run| - 1];
      RunSound(vps, n, before);
      var f := Last(before);
      assert Next(run[|run| - 2], run[|run| - 1]);
      var v: nat, e: Event :| v < |f.s.vps| && Allowed(f, v, e) && g == Do(f, v, e);
      EventReady(f, v, e);
    }
  }

  lemma OneMore(vps: nat, n: int, run: seq<Program>, v: nat, e: Event) returns (longer: seq<Program>)
    requires IsFibRun(vps, n, run) && v < |Last(run).s.vps| && Allowed(Last(run), v, e)
    ensures longer == run + [Do(Last(run), v, e)] && IsFibRun(vps, n, longer)
  {
    var g := Do(Last(run), v, e);
    longer := run + [g];
    hide Do, Allowed;
    forall i | 0 <= i < |longer| - 1
      ensures Next(longer[i], longer[i + 1])
    {
      if i < |run| - 1 {
        assert Next(run[i], run[i + 1]);
      } else {
        assert longer[i] == Last(run) && longer[i + 1] == g;
      }
    }
  }

  /** One VP acts on its own for a while. */
  lemma {:induction false} SoloRun(vps: nat, n: int, run: seq<Program>, b: nat, v: nat, k: nat)
      returns (longer: seq<Program>)
    requires IsFibRun(vps, n, run) && SmallEnough(vps, n) && v < vps && Below(Last(run).s.jobs, b)
    ensures IsFibRun(vps, n, longer) && run <= longer && Last(longer).s == Solo(Last(run).s, v, k)
    ensures Below(Last(longer).s.jobs, b) && Remaining(Last(longer), b) <= Remaining(Last(run), b)
    decreases k
  {
    var f := Last(run);
    RunSound(vps, n, run);
    longer := run;
    if k > 0 && Enabled(f.s, v, Advance) {
      assert Allowed(f, v, Sched(Advance));
      AdvanceLess(f, v, b);
      longer := OneMore(vps, n, run, v, Sched(Advance));
      hide Do, Allowed;
      var first := longer;
      longer := SoloRun(vps, n, first, b, v, k - 1);
      assert run <= first <= longer;
    }
  }

  /** A useful event: the next step of the code on top, or the next action of the scheduler. */
  lemma UsefulEvent(vps: nat, n: int, run: seq<Program>, b: nat, v: nat) returns (longer: seq<Program>, b': nat)
    requires IsFibRun(vps, n, run) && SmallEnough(vps, n) && Below(Last(run).s.jobs, b) && Productive(Last(run).s, v)
    ensures IsFibRun(vps, n, longer) && run <= longer
    ensures Below(Last(longer).s.jobs, b') && Remaining(Last(longer), b') < Remaining(Last(run), b)
  {
    var f := Last(run);
    RunSound(vps, n, run);
    assert VpReady(f, f.s.vps[v]);
    assert VpOk(f.s.jobs, v, f.s.vps[v]);
    var e := Sched(Advance);
    if f.s.vps[v].pc.User? {
      e := NextEvent(f, v);
    }
    longer := OneMore(vps, n, run, v, e);
    b' := b;
    if e.Sched? && e.a.Fork? {
      b' := b + e.a.child + 1;
      RunSound(vps, n, longer);
      UninlinedForkDepth(f, v, e.a.child);
      ForkLess(f, v, e.a.child, b');
      WiderBound(f, b, b');
      JobsAfter(f.s, v, e.a);
      DoIsApply(f, v, e.a);
    } else if e == Sched(Advance) {
      AdvanceLess(f, v, b);
    } else {
      UserLess(f, v, e, b);
      if e.Sched? {
        JobsAfter(f.s, v, e.a);
        DoIsApply(f, v, e.a);
      }
    }
  }

  /** A fork that inlined its job would show. */
  lemma UninlinedForkDepth(f: Program, v: nat, child: JobId)
    requires v < |f.s.vps| && Allowed(f, v, Sched(Fork(child))) && Uninlined(Do(f, v, Sched(Fork(child))).s)
    ensures |f.s.vps[v].context| <= INLINE_DEPTH
  {
    DoIsApply(f, v, Fork(child));
    assert child in Do(f, v, Sched(Fork(child))).s.jobs;
  }

  lemma {:induction false} RunOn(vps: nat, n: int, run: seq<Program>, b: nat) returns (longer: seq<Program>)
    requires IsFibRun(vps, n, run) && SmallEnough(vps, n) && Below(Last(run).s.jobs, b)
    ensures IsFibRun(vps, n, longer) && run <= longer
    ensures Last(longer).s.vps != [] && MainEnded(Last(longer).s) && AllFinished(Last(longer).s)
    decreases Remaining(Last(run), b)
  {
    var s := Last(run).s;
    RunSound(vps, n, run);
    longer := run;
    if !MainEnded(s) || !AllFinished(s) {
      var v, k := 0, 0;
      if j :| j in s.jobs && !s.jobs[j].inlined && s.jobs[j].state != Finished {
        v, k := NoDeadlock(vps, s, j);
      } else {
        k := MainAdvances(vps, s);
      }
      var first := SoloRun(vps, n, run, b, v, k);
      var second, b' := UsefulEvent(vps, n, first, b, v);
      longer := RunOn(vps, n, second, b');
      assert run <= first <= second <= longer;
    }
  }

  /** From every moment of every run on such arguments par_fib can be completed: all jobs
      Finished, the main program ended with Fib(n) in its cell, and all VPs able to leave. */
  lemma FibCanComplete(vps: nat, n: int, run: seq<Program>) returns (longer: seq<Program>, s: State)
    requires IsFibRun(vps, n, run) && SmallEnough(vps, n)
    ensures IsFibRun(vps, n, longer) && run <= longer
    ensures var f := Last(longer);
            && f.main.Ended? && f.root in f.locals && f.locals[f.root].cell == Fib(n)
            && forall j :: j in f.s.jobs ==> f.s.jobs[j].state == Finished
    ensures Leads(Last(longer).s, s) && |s.vps| == vps && forall v :: 0 <= v < vps ==> s.vps[v].pc.Exited?
  {
    var b := AboveAll(Last(run).s.jobs.Keys);
    longer := RunOn(vps, n, run, b);
    RunSound(vps, n, longer);
    JoinYieldsFib(vps, n, longer);
    s := ShutdownCanComplete(vps, Last(longer).s);
  }

  /** Wherever a run of par_fib has got, on any number of VPs: the machine can still finish, its
      code returning early if need be, if and only if no join for an inlined job is pending. */
  lemma FibCanFinishIff(vps: nat, n: int, run: seq<Program>)
    requires IsFibRun(vps, n, run)
    ensures CanFinish(Last(run).s) <==> !InlinedJoinPending(Last(run).s)
  {
    RunCorrect(vps, n, run);
    FibRunReachable(vps, n, run);
    FibJoinsAreStrictIff(Last(run));
    if !InlinedJoinPending(Last(run).s) {
      StrictIsAcyclic(Last(run).s);
    }
    CanFinishIff(vps, Last(run).s);
  }

  ghost predicate CanEnd(vps: nat, n: int, run: seq<Program>)
  {
    exists longer :: run <= longer && IsFibRun(vps, n, longer) && Last(longer).main.Ended?
  }

  /** The exact condition on one VP: no run of `fibonacci n` gets into a state from which it
      cannot end if and only if n is at most 10001. */
  lemma OneVpCanEndIff(n: int)
    ensures (forall run :: IsFibRun(1, n, run) ==> CanEnd(1, n, run)) <==> n <= 10001
  {
    if n <= INLINE_DEPTH + 1 {
      forall run | IsFibRun(1, n, run)
        ensures CanEnd(1, n, run)
      {
        var longer, s := FibCanComplete(1, n, run);
      }
    } else {
      var run := DeepRunsCannotEnd(1, n);
      assert IsFibRun(1, n, run) && !CanEnd(1, n, run);
    }
  }

  /** From 10002 on that happens on every number of VPs. */
  lemma DeepRunsCannotEnd(vps: nat, n: int) returns (run: seq<Program>)
    requires vps >= 1 && n > INLINE_DEPTH + 1
    ensures IsFibRun(vps, n, run) && !CanEnd(vps, n, run)
  {
    var f := DeepRunsHang(vps, n);
    run :| IsFibRun(vps, n, run) && Last(run) == f;
    forall longer | run <= longer && IsFibRun(vps, n, longer)
      ensures !Last(longer).main.Ended?
    {
      StuckForever(vps, n, longer, |run| - 1);
    }
  }
}
