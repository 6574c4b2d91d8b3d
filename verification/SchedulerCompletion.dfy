/** Deadlock freedom and shutdown together: from a reachable state the machine can finish every
    job and let every VP leave if and only if nobody waits in a circle or for an inlined job. */
module SchedulerCompletion {
  import opened Scheduler
  import opened SchedulerInvariant
  import opened SchedulerJobSteps
  import opened SchedulerResults
  import opened SchedulerWaiting
  import opened SchedulerProgress
  import opened SchedulerShutdown

  // ---------------------------------------------------------------- what is left to do

  /** What a job still has to go through when its code does nothing but return. */
  function JobWork(job: Job): nat
  {
    match job.place
    case Listed(_) => 10
    case Held(_) => if job.state == Ready then 8 else 6
    case Stacked(_) => 3
    case Gone => 0
  }

  function JobsWork(jobs: map<JobId, Job>, b: nat): nat
  {
    if b == 0 then 0 else JobsWork(jobs, b - 1) + if b - 1 in jobs then JobWork(jobs[b - 1]) else 0
  }

  function VpWork(p: Vp): nat
  {
    3 * JoinsIn(p.frames) + (if p.pc.User? then 1 else 0)
    + if p.pc.AtUncount? && p.pc.found.Some? then 1 else 0
  }

  function VpsWork(vps: seq<Vp>): nat
  {
    if vps == [] then 0 else VpsWork(Pop(vps)) + VpWork(Last(vps))
  }

  function Work(s: State, b: nat): nat
  {
    JobsWork(s.jobs, b) + VpsWork(s.vps)
  }

  lemma {:induction false} JobsWorkUpdate(jobs: map<JobId, Job>, j: JobId, job: Job, b: nat)
    ensures JobsWork(jobs[j := job], b)
         == JobsWork(jobs, b) + if j < b then JobWork(job) - (if j in jobs then JobWork(jobs[j]) else 0) else 0
    decreases b
  {
    if b > 0 {
      JobsWorkUpdate(jobs, j, job, b - 1);
    }
  }

  lemma {:induction false} VpsWorkUpdate(vps: seq<Vp>, v: nat, p: Vp)
    requires v < |vps|
    ensures VpsWork(vps[v := p]) == VpsWork(vps) + VpWork(p) - VpWork(vps[v])
    decreases |vps|
  {
    if v == |vps| - 1 {
      assert Pop(vps[v := p]) == Pop(vps);
    } else {
      assert Pop(vps[v := p]) == Pop(vps)[v := p];
      VpsWorkUpdate(Pop(vps), v, p);
    }
  }

  lemma JoinsOfPop(frames: seq<Frame>)
    requires frames != []
    ensures JoinsIn(frames) == JoinsIn(Pop(frames)) + if Last(frames).Joining? then 1 else 0
  {
  }

  lemma JoinsOfPush(frames: seq<Frame>, x: Frame)
    ensures JoinsIn(frames + [x]) == JoinsIn(frames) + if x.Joining? then 1 else 0
  {
    assert Pop(frames + [x]) == frames;
  }

  // ---------------------------------------------------------------- one action

  ghost predicate Below(jobs: map<JobId, Job>, b: nat)
  {
    forall j :: j in jobs ==> j < b
  }

  /** What an action of VP v does to the machine: to v itself, the list of one other VP, and
      at most one job. */
  lemma WorkOfChange(s: State, s': State, v: nat, p: Vp, j: JobId, b: nat)
    requires v < |s.vps| && s'.vps == s.vps[v := p] && j in s.jobs && j in s'.jobs && s'.jobs == s.jobs[j := s'.jobs[j]]
    requires j < b
    ensures Work(s', b) == Work(s, b) + JobWork(s'.jobs[j]) - JobWork(s.jobs[j]) + VpWork(p) - VpWork(s.vps[v])
  {
    JobsWorkUpdate(s.jobs, j, s'.jobs[j], b);
    VpsWorkUpdate(s.vps, v, p);
  }

  lemma WorkOfVp(s: State, s': State, v: nat, p: Vp, b: nat)
    requires v < |s.vps| && s'.vps == s.vps[v := p] && s'.jobs == s.jobs
    ensures Work(s', b) == Work(s, b) + VpWork(p) - VpWork(s.vps[v])
  {
    VpsWorkUpdate(s.vps, v, p);
  }

  ghost predicate LessWork(s: State, s': State, v: nat, b: nat)
  {
    Work(s', b) <= Work(s, b) && (Productive(s, v) ==> Work(s', b) < Work(s, b))
  }

  lemma FinishWorks(s: State, v: nat, b: nat)
    requires Inv(s) && v < |s.vps| && s.vps[v].pc.Returned? && Below(s.jobs, b)
    ensures LessWork(s, DoAdvance(s, v), v, b)
  {
    var p := s.vps[v];
    assert VpOk(s.jobs, v, p);
    assert Last(p.frames) in p.frames && FrameOk(s.jobs, v, Last(p.frames));
    var s' := DoAdvance(s, v);
    JoinsOfPop(p.frames);
    WorkOfChange(s, s', v, s'.vps[v], Last(p.frames).job, b);
  }

  lemma CheckWorks(s: State, v: nat, b: nat)
    requires Inv(s) && v < |s.vps| && s.vps[v].pc.AtCheck? && Below(s.jobs, b)
    ensures LessWork(s, DoAdvance(s, v), v, b)
  {
    var p := s.vps[v];
    assert VpOk(s.jobs, v, p);
    var s' := DoAdvance(s, v);
    JoinsOfPop(p.frames);
    WorkOfVp(s, s', v, s'.vps[v], b);
  }

  lemma PopWorks(s: State, v: nat, b: nat)
    requires Inv(s) && v < |s.vps| && s.vps[v].pc.AtPop? && Below(s.jobs, b)
    ensures LessWork(s, DoAdvance(s, v), v, b)
  {
    var p := s.vps[v];
    assert VpOk(s.jobs, v, p);
    var s' := DoAdvance(s, v);
    if p.list == [] {
      WorkOfVp(s, s', v, s'.vps[v], b);
    } else {
      var j := Last(p.list).job;
      assert EntryOk(s.jobs, v, p.counter, Last(p.list));
      assert PlaceOk(s.vps, j, s.jobs[j]);
      WorkOfChange(s, s', v, s'.vps[v], j, b);
    }
  }

  lemma ClaimWorks(s: State, v: nat, b: nat)
    requires Inv(s) && v < |s.vps| && (s.vps[v].pc.Popped? || s.vps[v].pc.Stolen?) && Below(s.jobs, b)
    ensures LessWork(s, DoAdvance(s, v), v, b)
  {
    var p := s.vps[v];
    assert VpOk(s.jobs, v, p);
    var s' := DoAdvance(s, v);
    WorkOfChange(s, s', v, s'.vps[v], p.pc.job, b);
  }

  lemma StealWorks(s: State, v: nat, b: nat)
    requires Inv(s) && v < |s.vps| && s.vps[v].pc.AtSteal? && Below(s.jobs, b)
    ensures LessWork(s, DoAdvance(s, v), v, b)
  {
    var p := s.vps[v];
    var k := p.pc.victim;
    var s' := DoAdvance(s, v);
    if k < |s.vps| && k != v && s.vps[k].list != [] {
      var e := s.vps[k].list[0];
      assert VpOk(s.jobs, k, s.vps[k]);
      assert EntryOk(s.jobs, k, s.vps[k].counter, e);
      assert PlaceOk(s.vps, e.job, s.jobs[e.job]);
      var t := s.(vps := s.vps[k := s'.vps[k]]);
      WorkOfVp(s, t, k, s'.vps[k], b);
      WorkOfChange(t, s', v, s'.vps[v], e.job, b);
    } else {
      WorkOfVp(s, s', v, s'.vps[v], b);
    }
  }

  lemma RunWorks(s: State, v: nat, b: nat)
    requires Inv(s) && v < |s.vps| && s.vps[v].pc.AtRun? && Below(s.jobs, b)
    ensures LessWork(s, DoAdvance(s, v), v, b)
  {
    var p := s.vps[v];
    assert VpOk(s.jobs, v, p);
    var s' := DoAdvance(s, v);
    JoinsOfPush(p.frames, Body(p.pc.job, false));
    WorkOfChange(s, s', v, s'.vps[v], p.pc.job, b);
  }

  /** Every scheduler action keeps or reduces what is left; useful ones reduce it. */
  lemma AdvanceWorks(s: State, v: nat, b: nat)
    requires Inv(s) && v < |s.vps| && Enabled(s, v, Advance) && Below(s.jobs, b)
    ensures LessWork(s, DoAdvance(s, v), v, b)
  {
    match s.vps[v].pc
    case Returned => FinishWorks(s, v, b);
    case AtCheck => CheckWorks(s, v, b);
    case AtPop => PopWorks(s, v, b);
    case Popped(_) => ClaimWorks(s, v, b);
    case Stolen(_) => ClaimWorks(s, v, b);
    case AtSteal(_) => StealWorks(s, v, b);
    case AtRun(_) => RunWorks(s, v, b);
    case AtCount => WorkOfVp(s, DoAdvance(s, v), v, DoAdvance(s, v).vps[v], b);
    case AtUncount(_) => WorkOfVp(s, DoAdvance(s, v), v, DoAdvance(s, v).vps[v], b);
  }

  // ---------------------------------------------------------------- waiting along a run

  /** Where no code forks or joins, the joins on a stack are old ones. */
  lemma NoNewJoins(s: State, v: nat, a: Action)
    requires v < |s.vps| && Enabled(s, v, a) && IsClosing(a)
    ensures |Apply(s, v, a).vps| == |s.vps| && Apply(s, v, a).jobs.Keys == s.jobs.Keys
    ensures var fs, fs' := s.vps[v].frames, Apply(s, v, a).vps[v].frames;
            forall i :: 0 <= i < |fs'| && fs'[i].Joining? ==> i < |fs| && fs[i] == fs'[i]
  {
  }

  lemma StaysAcyclic(s: State, v: nat, a: Action)
    requires Inv(s) && Acyclic(s) && v < |s.vps| && Enabled(s, v, a) && IsClosing(a)
    ensures Acyclic(Apply(s, v, a))
  {
    var s' := Apply(s, v, a);
    NoNewJoins(s, v, a);
    forall w, i | 0 <= w < |s'.vps| && 0 <= i < |s'.vps[w].frames|
      ensures !HangsAt(s', w, i)
    {
      if s'.vps[w].frames[i].Joining? {
        if w != v {
          OtherVp(s, v, a, w);
        }
        assert !HangsAt(s, w, i);
        var t := s'.vps[w].frames[i].target;
        if t in s.jobs {
          KeepsHistory(s, v, a, t);
        }
      }
    }
    forall c
      ensures !IsCycle(s', c)
    {
      if IsCycle(s', c) {
        NoNewCycle(s, v, a, c);
        assert false;
      }
    }
  }

  /** A join for an inlined job stays pending. */
  lemma HangStays(s: State, s': State, v: nat, i: nat)
    requires Inv(s) && Step(s, s') && v < |s.vps| && i < |s.vps[v].frames| && HangsAt(s, v, i)
    ensures InlinedJoinPending(s')
  {
    var fs, t := s.vps[v].frames, s.vps[v].frames[i].target;
    JoinFrameStep(s, s', v, i);
    StaysInlined(s, s', t);
    assert PlaceOk(s.vps, t, s.jobs[t]);
    var fs' := s'.vps[v].frames;
    assert fs'[i] == fs'[..i + 1][i] == fs[..i + 1][i] == fs[i];
    assert HangsAt(s', v, i);
  }

  /** Nothing that anybody does undoes a hopeless wait. */
  lemma StaysCyclic(s: State, s': State)
    requires Inv(s) && Step(s, s') && !Acyclic(s)
    ensures !Acyclic(s')
  {
    if InlinedJoinPending(s) {
      var v, i :| 0 <= v < |s.vps| && 0 <= i < |s.vps[v].frames| && HangsAt(s, v, i);
      HangStays(s, s', v, i);
    } else {
      var c :| IsCycle(s, c);
      var v: nat, a: Action :| v < |s.vps| && Enabled(s, v, a) && s' == Apply(s, v, a);
      CycleStays(s, v, a, c);
    }
  }

  lemma {:induction false} CyclicForEver(path: seq<State>)
    requires path != [] && Inv(path[0]) && IsPath(path) && !Acyclic(path[0])
    ensures !Acyclic(Last(path))
    decreases |path|
  {
    if |path| > 1 {
      assert Step(path[0], path[1]);
      StaysCyclic(path[0], path[1]);
      NextInv(path[0], path[1]);
      TailIsPath(path);
      CyclicForEver(path[1..]);
    }
  }

  // ---------------------------------------------------------------- continuations

  /** s can go on to t, where not more is left to do and nobody waits hopelessly. */
  ghost predicate Continues(n: nat, s: State, t: State, b: nat)
  {
    && Reachable(n, t) && Leads(s, t) && Acyclic(t)
    && |t.vps| == |s.vps| && t.jobs.Keys == s.jobs.Keys && Below(t.jobs, b)
  }

  lemma ContinuesMeans(n: nat, s: State, t: State, b: nat)
    requires Continues(n, s, t, b)
    ensures Reachable(n, t) && Acyclic(t) && Below(t.jobs, b)
  {
  }

  lemma ContinuesBy(n: nat, s: State, t: State, b: nat, v: nat, a: Action)
    requires Continues(n, s, t, b) && v < |t.vps| && Enabled(t, v, a) && IsClosing(a)
    ensures Continues(n, s, Apply(t, v, a), b) && |Apply(t, v, a).vps| == |t.vps|
  {
    LeadsBy(s, t, v, a);
    Then(n, t, v, a);
    ReachableInv(n, t);
    StaysAcyclic(t, v, a);
    NoNewJoins(t, v, a);
  }

  lemma {:induction false} SoloContinues(n: nat, s: State, t: State, b: nat, v: nat, k: nat)
    requires Continues(n, s, t, b) && v < |t.vps|
    ensures Continues(n, s, Solo(t, v, k), b) && Work(Solo(t, v, k), b) <= Work(t, b)
    decreases k
  {
    hide Continues, Inv, Work, DoAdvance;
    ContinuesMeans(n, s, t, b);
    if k > 0 && Enabled(t, v, Advance) {
      ReachableInv(n, t);
      AdvanceWorks(t, v, b);
      ContinuesBy(n, s, t, b, v, Advance);
      SoloContinues(n, s, DoAdvance(t, v), b, v, k - 1);
    }
  }

  /** A useful action, with the code on top of the stack returning or ending the program. */
  lemma UsefulAction(n: nat, s: State, t: State, b: nat, v: nat) returns (t': State)
    requires Continues(n, s, t, b) && Productive(t, v)
    ensures Continues(n, s, t', b) && Work(t', b) < Work(t, b)
  {
    ReachableInv(n, t);
    var p := t.vps[v];
    assert VpOk(t.jobs, v, p);
    var a := Advance;
    if p.pc.User? {
      assert FrameFits(v, p.frames, |p.frames| - 1);
      a := if Last(p.frames).MainCode? then Terminate else Return;
      WorkOfVp(t, Apply(t, v, a), v, Apply(t, v, a).vps[v], b);
    } else {
      AdvanceWorks(t, v, b);
    }
    ContinuesBy(n, s, t, b, v, a);
    t' := Apply(t, v, a);
  }

  ghost predicate AllFinished(s: State)
  {
    forall j :: j in s.jobs && !s.jobs[j].inlined ==> s.jobs[j].state == Finished
  }

  /** With all jobs Finished, the main program can go on if it has not ended. */
  lemma MainAdvances(n: nat, s: State) returns (k: nat)
    requires Reachable(n, s) && s.vps != [] && Acyclic(s) && AllFinished(s) && !MainEnded(s)
    ensures Productive(Solo(s, 0, k), 0)
  {
    ReachableInv(n, s);
    forall w | 0 <= w < |s.vps|
      ensures s.vps[w].list == []
    {
      var p := s.vps[w];
      assert VpOk(s.jobs, w, p);
      assert p.list != [] ==>
          && EntryOk(s.jobs, w, p.counter, p.list[0])
          && PlaceOk(s.vps, p.list[0].job, s.jobs[p.list[0].job]);
    }
    var frames := s.vps[0].frames;
    assert VpOk(s.jobs, 0, s.vps[0]);
    assert Last(frames) in frames && FrameOk(s.jobs, 0, Last(frames));
    assert !HangsAt(s, 0, |frames| - 1);
    k := JoinerAdvances(s, 0);
  }

  lemma {:induction false} FinishAll(n: nat, s: State, t: State, b: nat) returns (t': State)
    requires n >= 1 && |s.vps| == n && Continues(n, s, t, b)
    ensures Continues(n, s, t', b) && t'.vps != [] && MainEnded(t') && AllFinished(t')
    decreases Work(t, b)
  {
    t' := t;
    if j :| j in t.jobs && !t.jobs[j].inlined && t.jobs[j].state != Finished {
      var v, k := NoDeadlock(n, t, j);
      SoloContinues(n, s, t, b, v, k);
      var u := UsefulAction(n, s, Solo(t, v, k), b, v);
      t' := FinishAll(n, s, u, b);
    } else if !MainEnded(t) {
      var k := MainAdvances(n, t);
      SoloContinues(n, s, t, b, 0, k);
      var u := UsefulAction(n, s, Solo(t, 0, k), b, 0);
      t' := FinishAll(n, s, u, b);
    }
  }

  lemma LeadsOn(s: State, t: State, u: State)
    requires Leads(s, t) && Leads(t, u)
    ensures Leads(s, u)
  {
    var p :| p != [] && IsPath(p) && p[0] == s && Last(p) == t;
    var q :| q != [] && IsPath(q) && q[0] == t && Last(q) == u;
    var path := p + q[1..];
    forall i | 0 <= i < |path| - 1
      ensures Step(path[i], path[i + 1])
    {
      if i < |p| - 1 {
        assert Step(p[i], p[i + 1]);
      } else {
        var k := i - (|p| - 1);
        assert path[i] == q[k] && path[i + 1] == q[k + 1];
        assert Step(q[k], q[k + 1]);
      }
    }
    assert Last(path) == u;
  }

  /** From every reachable state in which nobody waits in a circle or for an inlined job, some
      continuation runs every job to its end, ends the main program and lets all VPs leave. */
  lemma EverythingCanFinish(n: nat, s: State) returns (s': State)
    requires n >= 1 && Reachable(n, s) && Acyclic(s)
    ensures Leads(s, s') && |s'.vps| == n && forall v :: 0 <= v < n ==> s'.vps[v].pc.Exited?
    ensures s.jobs.Keys <= s'.jobs.Keys
    ensures forall j :: j in s'.jobs ==>
            s'.jobs[j].starts == 1 && (s'.jobs[j].state == Finished <==> !s'.jobs[j].inlined)
  {
    IdleIsExact(n, s);
    var b := AboveAll(s.jobs.Keys);
    LeadsNowhere(s);
    var t := FinishAll(n, s, s, b);
    s' := ShutdownCanComplete(n, t);
    LeadsOn(s, t, s');
    LeadsReachable(n, t, s');
    NoJobLostAtShutdown(n, s');
  }

  ghost predicate AllExited(s: State)
  {
    forall v :: 0 <= v < |s.vps| ==> s.vps[v].pc.Exited?
  }

  ghost predicate CanFinish(s: State)
  {
    exists s' :: Leads(s, s') && AllExited(s')
  }

  lemma ExitedIsAcyclic(s: State)
    requires Inv(s) && AllExited(s)
    ensures Acyclic(s)
  {
    forall v | 0 <= v < |s.vps|
      ensures s.vps[v].frames == []
    {
      assert VpOk(s.jobs, v, s.vps[v]);
    }
    forall c
      ensures !IsCycle(s, c)
    {
      if IsCycle(s, c) {
        InCycle(s, c, 0);
        assert false;
      }
    }
  }

  /** The exact condition: the machine can go on to the point where every VP has left if and
      only if nobody waits in a circle and no join for an inlined job is pending. */
  lemma CanFinishIff(n: nat, s: State)
    requires n >= 1 && Reachable(n, s)
    ensures CanFinish(s) <==> Acyclic(s)
  {
    if Acyclic(s) {
      var s' := EverythingCanFinish(n, s);
      assert AllExited(s');
    } else {
      ReachableInv(n, s);
      forall s' | Leads(s, s')
        ensures !AllExited(s')
      {
        var path :| path != [] && IsPath(path) && path[0] == s && Last(path) == s';
        CyclicForEver(path);
        LeadsReachable(n, s, s');
        ReachableInv(n, s');
        if AllExited(s') {
          ExitedIsAcyclic(s');
        }
      }
    }
  }

  /** Joins for one's own listed jobs are enough. */
  lemma StrictJoinsCanFinish(n: nat, s: State)
    requires n >= 1 && Reachable(n, s) && StrictJoins(s)
    ensures CanFinish(s)
  {
    ReachableInv(n, s);
    StrictIsAcyclic(s);
    CanFinishIff(n, s);
  }

  lemma LeadsReachable(n: nat, s: State, t: State)
    requires Reachable(n, s) && Leads(s, t)
    ensures Reachable(n, t) && s.jobs.Keys <= t.jobs.Keys
  {
    var path :| path != [] && IsPath(path) && path[0] == s && Last(path) == t;
    PathReachable(n, path);
  }

  lemma {:induction false} PathReachable(n: nat, path: seq<State>)
    requires path != [] && IsPath(path) && Reachable(n, path[0])
    ensures Reachable(n, Last(path)) && path[0].jobs.Keys <= Last(path).jobs.Keys
    decreases |path|
  {
    if |path| > 1 {
      assert Step(path[0], path[1]);
      var v: nat, a: Action :| v < |path[0].vps| && Enabled(path[0], v, a) && path[1] == Apply(path[0], v, a);
      Then(n, path[0], v, a);
      forall j | j in path[0].jobs
        ensures j in path[1].jobs
      {
        KeepsHistory(path[0], v, a, j);
      }
      TailIsPath(path);
      PathReachable(n, path[1..]);
    }
  }
}
