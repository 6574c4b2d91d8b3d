/** The inline branch of fork_job can be reached, and it can hang the program: with one VP, a
    chain of jobs that each fork and join the next one gets there. */
module SchedulerInline {
  import opened Options
  import opened HeapOrder
  import opened Scheduler
  import opened SchedulerResults

  /** The job that forks number `i` of the chain. */
  function Forker(i: nat): Option<JobId>
  {
    if i == 0 then None else Some(i - 1)
  }

  function ChainFrames(n: nat): (fs: seq<Frame>)
    ensures fs != []
    ensures Last(fs) == if n == 0 then MainCode else Body(n - 1, false)
  {
    if n == 0 then [MainCode] else ChainFrames(n - 1) + [Joining(n - 1), Body(n - 1, false)]
  }

  function ChainJob(i: nat): Job
  {
    Job(JobState.Running, i, Forker(i), Forker(i), false, Stacked(0), 1, i + 1)
  }

  function ChainVp(n: nat): Vp
  {
    Vp([], n, Forker(n), seq(n, i requires 0 <= i < n => Forker(i)), ChainFrames(n), User)
  }

  /** `n` jobs of the chain are running, each waiting for the next one. */
  function Chain(n: nat): State
  {
    State([ChainVp(n)], map i: JobId | 0 <= i < n :: ChainJob(i), 0, n + 1)
  }

  /** Job n has been forked on top of the chain and is not yet part of it. */
  function Stage(n: nat, p: Vp, job: Job): State
  {
    State([p], Chain(n).jobs[n := job], 0, n + 1)
  }

  function Forked(n: nat): Job
  {
    Job(Ready, n, Forker(n), Forker(n), false, Listed(0), 0, 0)
  }

  function Forking(n: nat): Vp
  {
    ChainVp(n).(list := [Entry(n, n)], counter := n + 1)
  }

  /** The VP after it has suspended job n - 1 in its join for job n. */
  function Suspended(n: nat): Vp
  {
    var p := Forking(n);
    p.(frames := p.frames + [Joining(n)], context := p.context + [Forker(n)], pc := AtPop)
  }

  lemma ForkAndJoin(n: nat)
    requires n <= INLINE_DEPTH && Reachable(1, Chain(n))
    ensures Reachable(1, Stage(n, Suspended(n), Forked(n)))
  {
    var s := Chain(n);
    Then(1, s, 0, Fork(n));
    var s1 := Apply(s, 0, Fork(n));
    assert AfterInsert(ChainVp(n).list, Entry(n, n)) == [Entry(n, n)];
    assert s1.vps == [Forking(n)];
    assert JobOf(Last(ChainFrames(n))) == Forker(n);
    assert s1 == Stage(n, Forking(n), Forked(n));
    Then(1, s1, 0, CallJoin(n));
    var s2 := Apply(s1, 0, CallJoin(n));
    Then(1, s2, 0, Advance);
    assert Apply(s2, 0, Advance).vps == [Suspended(n)];
  }

  lemma PopAndRun(n: nat)
    requires Reachable(1, Stage(n, Suspended(n), Forked(n)))
    ensures Reachable(1, State([Running(n)], Chain(n).jobs[n := ChainJob(n)], 0, n + 2))
  {
    var s := Stage(n, Suspended(n), Forked(n));
    Then(1, s, 0, Advance);
    var s1 := Apply(s, 0, Advance);
    assert s1 == Stage(n, Suspended(n).(list := [], pc := Popped(n)), Forked(n).(place := Held(0)));
    Then(1, s1, 0, Advance);
    var s2 := Apply(s1, 0, Advance);
    assert s2 == Stage(n, Suspended(n).(list := [], current := Some(n), pc := AtRun(n)),
           Forked(n).(place := Held(0), state := JobState.Running));
    Then(1, s2, 0, Advance);
    var s3 := Apply(s2, 0, Advance);
    assert s3.vps == [Running(n)];
    assert s3.jobs == Chain(n).jobs[n := ChainJob(n)];
  }

  function Running(n: nat): Vp
  {
    var p := Suspended(n);
    p.(list := [], current := Some(n), frames := p.frames + [Body(n, false)], pc := User)
  }

  /** The main program or job n - 1 forks job n, joins it, and runs it inside the join. */
  lemma ChainStep(n: nat)
    requires n <= INLINE_DEPTH
    requires Reachable(1, Chain(n))
    ensures Reachable(1, Chain(n + 1))
  {
    ForkAndJoin(n);
    PopAndRun(n);
    var p, q := Running(n), ChainVp(n + 1);
    assert p.frames == q.frames && p.context == q.context;
    assert Chain(n).jobs[n := ChainJob(n)] == Chain(n + 1).jobs;
  }

  lemma {:induction false} ChainReachable(n: nat)
    requires n <= INLINE_DEPTH + 1
    ensures Reachable(1, Chain(n))
  {
    if n == 0 {
      assert ChainVp(0) == Vp([], 0, None, [], [MainCode], User);
      assert Initial(1).vps == [ChainVp(0)];
      assert Initial(1) == Chain(0);
      assert IsRun(1, [Initial(1)]);
      assert Last([Initial(1)]) == Chain(0);
    } else {
      ChainReachable(n - 1);
      ChainStep(n - 1);
    }
  }

  /** A machine with one VP can get to a pending join for a job that was inlined. */
  lemma InlinedJoinReachable() returns (s: State, t: JobId)
    ensures Reachable(1, s) && |s.vps| == 1
    ensures t in s.jobs && s.jobs[t].inlined && s.jobs[t].place == Gone
    ensures s.vps[0].frames != [] && Last(s.vps[0].frames) == Joining(t)
  {
    var n := INLINE_DEPTH + 1;
    ChainReachable(n);
    var s0 := Chain(n);
    t := n;
    assert |s0.vps[0].context| > INLINE_DEPTH;
    Then(1, s0, 0, Fork(n));
    var s1 := Apply(s0, 0, Fork(n));
    Then(1, s1, 0, Return);
    var s2 := Apply(s1, 0, Return);
    Then(1, s2, 0, Advance);
    var s3 := Apply(s2, 0, Advance);
    assert Pop(s1.vps[0].frames) == s0.vps[0].frames;
    Then(1, s3, 0, CallJoin(n));
    s := Apply(s3, 0, CallJoin(n));
  }
}
