/** Where the code of par_fib can be: a job that has not started is at its beginning, and code
    that is about to run is never in the middle of a join. */
module FibonacciReady {
  import opened Scheduler
  import opened SchedulerInvariant
  import opened SchedulerJobSteps
  import opened SchedulerResults
  import opened F = Fibonacci
  import opened FibonacciBound

  // ---------------------------------------------------------------- unstarted jobs

  ghost predicate FreshAtBegin(f: Program)
  {
    forall j :: j in f.locals && j in f.s.jobs && f.s.jobs[j].starts == 0 ==> f.locals[j].at.Begin?
  }

  lemma Started(s: State, v: nat, i: nat)
    requires Inv(s) && v < |s.vps| && i < |s.vps[v].frames| && s.vps[v].frames[i].Body?
    ensures var j := s.vps[v].frames[i].job; j in s.jobs && s.jobs[j].starts == 1 && s.jobs[j].place == Stacked(v)
  {
    FrameHasJob(s, v, i);
    var j := s.vps[v].frames[i].job;
    assert PlaceOk(s.vps, j, s.jobs[j]);
  }

  lemma StartsKept(s: State, v: nat, a: Action)
    requires v < |s.vps| && Enabled(s, v, a)
    ensures forall j :: j in s.jobs ==> j in Apply(s, v, a).jobs && Apply(s, v, a).jobs[j].starts >= s.jobs[j].starts
  {
  }

  /** Only the code of a job on the stack of the acting VP moves, so it has started. */
  lemma MovedIsStarted(f: Program, v: nat, e: Event, j: JobId)
    requires Correct(f) && v < |f.s.vps| && Allowed(f, v, e) && j in f.locals
    ensures var g := Do(f, v, e);
            && j in g.locals
            && (g.locals[j] != f.locals[j] ==> f.s.jobs[j].starts == 1 && f.s.jobs[j].place == Stacked(v))
  {
    var frames := f.s.vps[v].frames;
    if e == Sched(Advance) {
      if ReturnsFromJoin(f.s, f.s.vps[v]) {
        JoinReturnDo(f, Do(f, v, e), v);
        CallerReady(f, v);
        if Caller(f.s.vps[v]).Body? {
          Started(f.s, v, |frames| - 2);
        }
      }
    } else {
      TopLocal(f, v);
      if Last(frames).Body? {
        Started(f.s, v, |frames| - 1);
      }
    }
  }

  lemma NewAtBegin(f: Program, v: nat, e: Event, j: JobId)
    requires Correct(f) && v < |f.s.vps| && Allowed(f, v, e) && j in Do(f, v, e).locals && j !in f.locals
    ensures Do(f, v, e).locals[j].at.Begin?
  {
    if e != Sched(Advance) {
      TopLocal(f, v);
    }
  }

  lemma EventFresh(f: Program, v: nat, e: Event)
    requires Correct(f) && FreshAtBegin(f) && v < |f.s.vps| && Allowed(f, v, e)
    ensures FreshAtBegin(Do(f, v, e))
  {
    var g := Do(f, v, e);
    if e.Sched? {
      StartsKept(f.s, v, e.a);
      DoIsApply(f, v, e.a);
    }
    forall j | j in g.locals && j in g.s.jobs && g.s.jobs[j].starts == 0
      ensures g.locals[j].at.Begin?
    {
      if j in f.locals {
        MovedIsStarted(f, v, e, j);
      } else {
        NewAtBegin(f, v, e, j);
      }
    }
  }

  lemma {:induction false} RunFresh(vps: nat, n: int, run: seq<Program>)
    requires IsFibRun(vps, n, run)
    ensures FreshAtBegin(Last(run))
    decreases |run|
  {
    if |run| > 1 {
      PrefixIsFibRun(vps, n, run, |run| - 2);
      var before := run[..|run| - 1];
      RunFresh(vps, n, before);
      RunCorrect(vps, n, before);
      var f, g := Last(before), Last(run);
      assert Next(run[|run| - 2], run[|run| - 1]);
      var v: nat, e: Event :| v < |f.s.vps| && Allowed(f, v, e) && g == Do(f, v, e);
      EventFresh(f, v, e);
    }
  }

  // ---------------------------------------------------------------- code that can go on

  /** The code of frame x is not inside a join and has not returned. */
  ghost predicate MayRun(f: Program, x: Frame)
  {
    match x
    case MainCode => f.main.MainBegin? || f.main.RootForked? || f.main.RootJoined?
    case Body(j, _) => j in f.locals && var at := f.locals[j].at; !at.JoiningRight? && !at.JoiningLeft? && !at.Done?
    case Joining(_) => false
  }

  ghost predicate VpReady(f: Program, p: Vp)
  {
    p.pc.User? && p.frames != [] ==> MayRun(f, Last(p.frames))
  }

  ghost predicate ReadyToRun(f: Program)
  {
    && FreshAtBegin(f)
    && (forall v {:trigger VpReady(f, f.s.vps[v])} :: 0 <= v < |f.s.vps| ==> VpReady(f, f.s.vps[v]))
    && (f.s.vps != [] && MainCode !in f.s.vps[0].frames ==> f.main.Ended?)
  }

  lemma MainMovesItself(f: Program, v: nat, e: Event)
    requires Correct(f) && v < |f.s.vps| && Allowed(f, v, e)
    ensures Do(f, v, e).main != f.main ==> MainCode in f.s.vps[v].frames
  {
    if e == Sched(Advance) && ReturnsFromJoin(f.s, f.s.vps[v]) {
      JoinReturnDo(f, Do(f, v, e), v);
      CallerReady(f, v);
      assert Caller(f.s.vps[v]) in f.s.vps[v].frames;
    } else if e != Sched(Advance) {
      TopLocal(f, v);
      assert Last(f.s.vps[v].frames) in f.s.vps[v].frames;
    }
  }

  lemma MainOnVpZero(s: State, v: nat)
    requires Inv(s) && v < |s.vps| && MainCode in s.vps[v].frames
    ensures v == 0
  {
    var i :| 0 <= i < |s.vps[v].frames| && s.vps[v].frames[i] == MainCode;
    MainAtBottom(s, v, i);
  }

  lemma OtherReady(f: Program, v: nat, e: Event, w: nat)
    requires Correct(f) && v < |f.s.vps| && Allowed(f, v, e) && w < |f.s.vps| && w != v
    requires VpReady(f, f.s.vps[w])
    ensures var g := Do(f, v, e);
            && |g.s.vps| == |f.s.vps| && g.s.vps[w].frames == f.s.vps[w].frames && VpReady(g, g.s.vps[w])
  {
    var p := f.s.vps[w];
    if e.Sched? {
      OtherVp(f.s, v, e.a, w);
      DoIsApply(f, v, e.a);
    }
    MainMovesItself(f, v, e);
    if p.frames != [] {
      assert Last(p.frames) in p.frames;
      if Last(p.frames).MainCode? {
        MainOnVpZero(f.s, w);
        if MainCode in f.s.vps[v].frames {
          MainOnVpZero(f.s, v);
        }
      } else if Last(p.frames).Body? {
        Started(f.s, w, |p.frames| - 1);
        MovedIsStarted(f, v, e, Last(p.frames).job);
      }
    }
  }

  lemma OwnReady(f: Program, v: nat, e: Event)
    requires Correct(f) && ReadyToRun(f) && v < |f.s.vps| && Allowed(f, v, e)
    requires Uninlined(f.s) && Uninlined(Do(f, v, e).s)
    ensures var g := Do(f, v, e); |g.s.vps| == |f.s.vps| && VpReady(g, g.s.vps[v])
  {
    var g := Do(f, v, e);
    match e
    case WriteSum =>
    case Sched(a) =>
      DoIsApply(f, v, a);
      match a
      case Fork(child) =>
        TopLocal(f, v);
        ForkShape(f, g, v, child);
      case CallJoin(_) =>
      case Return =>
      case Terminate =>
      case Advance =>
        if ReturnsFromJoin(f.s, f.s.vps[v]) {
          JoinReturnDo(f, g, v);
          CallerReady(f, v);
        } else {
          SilentReady(f, v);
        }
  }

  lemma SilentReady(f: Program, v: nat)
    requires Correct(f) && FreshAtBegin(f) && Uninlined(f.s) && v < |f.s.vps| && Enabled(f.s, v, Advance)
    requires !ReturnsFromJoin(f.s, f.s.vps[v])
    ensures var g := f.(s := DoAdvance(f.s, v)); |g.s.vps| == |f.s.vps| && VpReady(g, g.s.vps[v])
  {
    var p := f.s.vps[v];
    assert VpOk(f.s.jobs, v, p);
    if p.pc.AtRun? {
      assert PlaceOk(f.s.vps, p.pc.job, f.s.jobs[p.pc.job]);
    } else if p.pc.Returned? {
      assert Last(p.frames) in p.frames && FrameOk(f.s.jobs, v, Last(p.frames));
    }
  }

  lemma MainStays(f: Program, v: nat, e: Event)
    requires Correct(f) && v < |f.s.vps| && Allowed(f, v, e)
    requires MainCode !in f.s.vps[0].frames ==> f.main.Ended?
    ensures |Do(f, v, e).s.vps| == |f.s.vps|
    ensures MainCode !in Do(f, v, e).s.vps[0].frames ==> Do(f, v, e).main.Ended?
  {
    MainMovesItself(f, v, e);
    if MainCode in f.s.vps[v].frames {
      MainOnVpZero(f.s, v);
    }
    assert VpOk(f.s.jobs, v, f.s.vps[v]);
    if e.Sched? {
      DoIsApply(f, v, e.a);
      StepKeepsVps(f.s, v, e.a);
      if v == 0 {
        if !e.a.Terminate? {
          PoppedFrame(f.s, v, e.a);
        }
      } else {
        OtherVp(f.s, v, e.a, 0);
      }
    }
  }

  /** Only a body or a join is popped. */
  lemma PoppedFrame(s: State, v: nat, a: Action)
    requires v < |s.vps| && Enabled(s, v, a) && PcFits(s.vps[v]) && !a.Terminate?
    ensures |Apply(s, v, a).vps| == |s.vps|
    ensures MainCode in s.vps[v].frames ==> MainCode in Apply(s, v, a).vps[v].frames
  {
  }

  lemma EventReady(f: Program, v: nat, e: Event)
    requires Correct(f) && ReadyToRun(f) && v < |f.s.vps| && Allowed(f, v, e)
    requires Uninlined(f.s) && Uninlined(Do(f, v, e).s)
    ensures ReadyToRun(Do(f, v, e))
  {
    var g := Do(f, v, e);
    EventFresh(f, v, e);
    MainStays(f, v, e);
    OwnReady(f, v, e);
    forall w: nat | w < |g.s.vps|
      ensures VpReady(g, g.s.vps[w])
    {
      if w != v {
        assert VpReady(f, f.s.vps[w]);
        OtherReady(f, v, e, w);
      }
    }
  }

  lemma {:induction false} InitialReady(f: Program, vps: nat)
    requires vps >= 1 && f.s == Initial(vps) && f.main.MainBegin? && f.locals == map[]
    ensures ReadyToRun(f)
  {
  }
}
