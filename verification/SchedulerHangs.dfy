/** Programs that hang: two short runs into a waiting cycle.  In the first the program joins only
    later jobs and its joins alone close no circle; the circle runs through a call stack. */
module SchedulerHangs {
  import opened Options
  import opened HeapOrder
  import opened Scheduler
  import opened SchedulerJobSteps
  import opened SchedulerResults
  import opened SchedulerWaiting
  import opened SchedulerCompletion

  // ---------------------------------------------------------------- one VP

  /** One step of VP v. */
  lemma On(n: nat, s: State, v: nat, a: Action) returns (s': State)
    requires Reachable(n, s) && v < |s.vps| && Enabled(s, v, a)
    ensures s' == Apply(s, v, a) && Reachable(n, s')
  {
    Then(n, s, v, a);
    s' := Apply(s, v, a);
  }

  lemma {:induction false} Start(n: nat) returns (s: State)
    requires n >= 1
    ensures Reachable(n, s) && s == Initial(n)
  {
    s := Initial(n);
    assert IsRun(n, [s]) && Last([s]) == s;
  }

  /** On one VP, a join pops the newest job and runs it. */
  lemma JoinRuns(s: State, t: JobId) returns (s': State)
    requires Reachable(1, s) && |s.vps| == 1 && InUserCode(s.vps[0]) && t in s.jobs && s.jobs[t].state == Ready
    requires s.vps[0].list != []
    ensures Reachable(1, s')
    ensures var p := s.vps[0];
            var j := Last(p.list).job;
            && s'.vps == [Vp(Pop(p.list), p.counter, Some(j), p.context + [p.current],
                             p.frames + [Joining(t), Body(j, false)], User)]
            && (j in s.jobs ==> j in s'.jobs && s'.jobs == s.jobs[j := s'.jobs[j]])
  {
    var p := s.vps[0];
    var s1 := On(1, s, 0, CallJoin(t));
    var s2 := On(1, s1, 0, Advance);
    var s3 := On(1, s2, 0, Advance);
    var s4 := On(1, s3, 0, Advance);
    s' := On(1, s4, 0, Advance);
    assert p.frames + [Joining(t)] + [Body(Last(p.list).job, false)]
        == p.frames + [Joining(t), Body(Last(p.list).job, false)];
  }

  lemma ForkLists(s: State, child: JobId) returns (s': State)
    requires Reachable(1, s) && |s.vps| == 1 && InUserCode(s.vps[0]) && child !in s.jobs
    requires |s.vps[0].context| <= INLINE_DEPTH
    ensures Reachable(1, s')
    ensures var p := s.vps[0];
            s'.vps == [p.(list := p.list + [Entry(p.counter, child)], counter := p.counter + 1)]
    ensures child in s'.jobs && s'.jobs == s.jobs[child := s'.jobs[child]] && s'.jobs[child].state == Ready
  {
    s' := On(1, s, 0, Fork(child));
    ForkAppends(1, s, 0, child);
  }

  /** The main program forks and joins A (job 0); A forks C (job 1) and B (job 2) and joins C; that
      join runs the newer job B, and B joins A, which lies below it. */
  lemma AncestorRun() returns (s: State)
    ensures Reachable(1, s) && |s.vps| == 1
    ensures s.vps[0].frames == [MainCode, Joining(0), Body(0, false), Joining(1), Body(2, false), Joining(0)]
  {
    hide DoAdvance, DoFork;
    var s0 := Start(1);
    var s1 := ForkLists(s0, 0);
    var s2 := JoinRuns(s1, 0);
    var s3 := ForkLists(s2, 1);
    var s4 := ForkLists(s3, 2);
    var s5 := JoinRuns(s4, 1);
    s := On(1, s5, 0, CallJoin(0));
  }

  /** That closes a circle: A is buried under B, and B is in a join for A.  The machine can never
      finish, although the joins themselves go from B to A and from A to C. */
  lemma AncestorJoinReachable() returns (s: State)
    ensures Reachable(1, s) && |s.vps| == 1
    ensures s.vps[0].frames == [MainCode, Joining(0), Body(0, false), Joining(1), Body(2, false), Joining(0)]
    ensures IsCycle(s, [0, 2, 0]) && !CanFinish(s)
  {
    s := AncestorRun();
    ReachableInv(1, s);
    var frames := s.vps[0].frames;
    FrameHasJob(s, 0, 2);
    assert JobOf(frames[2]) == Some(0) && JobOf(frames[4]) == Some(2) && frames[5] == Joining(0);
    assert WaitsIn(s.jobs, frames, 0, 2) && WaitsIn(s.jobs, frames, 2, 0);
    assert WaitsFor(s, 0, 2) && WaitsFor(s, 2, 0);
    assert IsCycle(s, [0, 2, 0]);
    CanFinishIff(1, s);
  }
}
