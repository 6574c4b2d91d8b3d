/** Who waits for whom, and why waiting in a circle is for ever. */
module SchedulerWaiting {
  import opened Options
  import opened Scheduler
  import opened SchedulerInvariant
  import opened SchedulerJobSteps
  import opened SchedulerResults

  // ---------------------------------------------------------------- the wait-for relation

  /** On one call stack a job waits for every job above it. */
  ghost predicate IsUnder(frames: seq<Frame>, a: JobId, b: JobId)
  {
    exists i, k :: 0 <= i < k < |frames| && JobOf(frames[i]) == Some(a) && JobOf(frames[k]) == Some(b)
  }

  /** A job in a join waits for the joined job, once that is on a call stack itself; before
      that anybody can start it. */
  ghost predicate JoinsStarted(jobs: map<JobId, Job>, frames: seq<Frame>, a: JobId, b: JobId)
  {
    && b in jobs && jobs[b].place.Stacked?
    && exists i, k :: 0 <= i && k == i + 1 < |frames| && JobOf(frames[i]) == Some(a) && frames[k] == Joining(b)
  }

  ghost predicate WaitsIn(jobs: map<JobId, Job>, frames: seq<Frame>, a: JobId, b: JobId)
  {
    IsUnder(frames, a, b) || JoinsStarted(jobs, frames, a, b)
  }

  ghost predicate WaitsFor(s: State, a: JobId, b: JobId)
  {
    exists v :: 0 <= v < |s.vps| && WaitsIn(s.jobs, s.vps[v].frames, a, b)
  }

  /** Each job waits for the next one. */
  ghost predicate IsChain(s: State, c: seq<JobId>)
  {
    c != [] && forall i, k {:trigger c[i], c[k]} :: 0 <= i && k == i + 1 < |c| ==> WaitsFor(s, c[i], c[k])
  }

  ghost predicate IsCycle(s: State, c: seq<JobId>)
  {
    |c| >= 2 && IsChain(s, c) && c[0] == Last(c)
  }

  /** A join for an inlined job is pending somewhere. */
  ghost predicate InlinedJoinPending(s: State)
  {
    exists v, i :: 0 <= v < |s.vps| && 0 <= i < |s.vps[v].frames| && HangsAt(s, v, i)
  }

  ghost predicate HangsAt(s: State, v: int, i: int)
    requires 0 <= v < |s.vps| && 0 <= i < |s.vps[v].frames|
  {
    s.vps[v].frames[i].Joining? && s.vps[v].frames[i].target in s.jobs && s.jobs[s.vps[v].frames[i].target].inlined
  }

  /** Nobody waits in a circle, and nobody for a job that is never marked Finished. */
  ghost predicate Acyclic(s: State)
  {
    !InlinedJoinPending(s) && forall c :: !IsCycle(s, c)
  }

  // ---------------------------------------------------------------- one stack

  lemma WaitsMore(jobs: map<JobId, Job>, frames: seq<Frame>, x: Frame, a: JobId, b: JobId)
    requires WaitsIn(jobs, frames, a, b)
    ensures WaitsIn(jobs, frames + [x], a, b)
  {
    var fs := frames + [x];
    if IsUnder(frames, a, b) {
      var i, k :| 0 <= i < k < |frames| && JobOf(frames[i]) == Some(a) && JobOf(frames[k]) == Some(b);
      assert fs[i] == frames[i] && fs[k] == frames[k];
    } else {
      var i, k :| 0 <= i && k == i + 1 < |frames| && JobOf(frames[i]) == Some(a) && frames[k] == Joining(b);
      assert fs[i] == frames[i] && fs[k] == frames[k];
    }
  }

  /** What the frame on top adds. */
  lemma WaitsLess(jobs: map<JobId, Job>, frames: seq<Frame>, a: JobId, b: JobId)
    requires frames != [] && WaitsIn(jobs, frames, a, b)
    ensures || WaitsIn(jobs, Pop(frames), a, b)
            || JobOf(Last(frames)) == Some(b)
            || (Last(frames) == Joining(b) && b in jobs && jobs[b].place.Stacked?)
  {
    var fs := Pop(frames);
    if IsUnder(frames, a, b) {
      var i, k :| 0 <= i < k < |frames| && JobOf(frames[i]) == Some(a) && JobOf(frames[k]) == Some(b);
      if k < |fs| {
        assert fs[i] == frames[i] && fs[k] == frames[k];
      }
    } else {
      var i, k :| 0 <= i && k == i + 1 < |frames| && JobOf(frames[i]) == Some(a) && frames[k] == Joining(b);
      if k < |fs| {
        assert fs[i] == frames[i] && fs[k] == frames[k];
      }
    }
  }

  lemma WaitsByJobs(jobs: map<JobId, Job>, jobs': map<JobId, Job>, frames: seq<Frame>, a: JobId, b: JobId)
    requires WaitsIn(jobs, frames, a, b)
    requires b in jobs && jobs[b].place.Stacked? ==> b in jobs' && jobs'[b].place.Stacked?
    ensures WaitsIn(jobs', frames, a, b)
  {
  }

  /** A job on top of a stack waits for nobody. */
  lemma TopWaitsForNobody(s: State, v: nat, b: JobId)
    requires Inv(s) && v < |s.vps| && s.vps[v].frames != [] && Last(s.vps[v].frames).Body?
    ensures !WaitsFor(s, Last(s.vps[v].frames).job, b)
  {
    var j, top := Last(s.vps[v].frames).job, |s.vps[v].frames| - 1;
    forall w: nat, i: nat | w < |s.vps| && i < |s.vps[w].frames| && JobOf(s.vps[w].frames[i]) == Some(j)
      ensures w == v && i == top
    {
      BodyUnique(s, w, i, v, top);
    }
  }

  // ---------------------------------------------------------------- what a step changes

  /** Steps never forget a job, nor how it was forked. */
  lemma KeepsHistory(s: State, v: nat, a: Action, t: JobId)
    requires v < |s.vps| && Enabled(s, v, a) && t in s.jobs
    ensures t in Apply(s, v, a).jobs
    ensures Apply(s, v, a).jobs[t].inlined == s.jobs[t].inlined
    ensures Apply(s, v, a).jobs[t].forker == s.jobs[t].forker
  {
  }

  lemma StaysInlined(s: State, s': State, t: JobId)
    requires Step(s, s') && t in s.jobs && s.jobs[t].inlined
    ensures t in s'.jobs && s'.jobs[t].inlined
  {
    var v: nat, a: Action :| v < |s.vps| && Enabled(s, v, a) && s' == Apply(s, v, a);
    KeepsHistory(s, v, a, t);
  }

  /** The end of job y's function, which nobody waits for afterwards. */
  ghost predicate Ends(s: State, v: nat, y: JobId)
    requires v < |s.vps|
  {
    s.vps[v].pc.Returned? && s.vps[v].frames != [] && JobOf(Last(s.vps[v].frames)) == Some(y)
  }

  lemma StaysStacked(s: State, v: nat, a: Action, y: JobId)
    requires Inv(s) && v < |s.vps| && Enabled(s, v, a) && y in s.jobs && s.jobs[y].place.Stacked?
    ensures y in Apply(s, v, a).jobs && (Apply(s, v, a).jobs[y].place.Stacked? || Ends(s, v, y))
  {
    var p := s.vps[v];
    assert VpOk(s.jobs, v, p);
    if p.pc.AtPop? && p.list != [] {
      assert EntryOk(s.jobs, v, p.counter, Last(p.list));
    } else if p.pc.AtSteal? && p.pc.victim < |s.vps| && s.vps[p.pc.victim].list != [] {
      var k := p.pc.victim;
      assert VpOk(s.jobs, k, s.vps[k]) && EntryOk(s.jobs, k, s.vps[k].counter, s.vps[k].list[0]);
    }
  }

  lemma StackChange(s: State, v: nat, a: Action)
    requires v < |s.vps| && Enabled(s, v, a) && PcFits(s.vps[v])
    ensures |Apply(s, v, a).vps| == |s.vps|
    ensures var fs, fs' := s.vps[v].frames, Apply(s, v, a).vps[v].frames;
            || fs' == fs
            || (|fs'| == |fs| + 1 && Pop(fs') == fs
                && (IsClosing(a) ==> Last(fs').Body? && s.vps[v].pc == AtRun(Last(fs').job)))
            || (fs == [MainCode] && fs' == [])
            || (fs != [] && fs' == Pop(fs) && Last(fs).Body? && s.vps[v].pc.Returned?)
            || (fs != [] && fs' == Pop(fs) && Last(fs).Joining? && IsFinished(s.jobs, Last(fs).target))
  {
  }

  predicate IsClosing(a: Action)
  {
    a.Advance? || a.Return? || a.Terminate?
  }

  /** A wait ends only with the end of the job that is waited for. */
  lemma WaitsOn(s: State, v: nat, a: Action, x: JobId, y: JobId)
    requires Inv(s) && v < |s.vps| && Enabled(s, v, a) && WaitsFor(s, x, y)
    ensures WaitsFor(Apply(s, v, a), x, y) || Ends(s, v, y)
  {
    var s' := Apply(s, v, a);
    assert VpOk(s.jobs, v, s.vps[v]);
    StackChange(s, v, a);
    var w :| 0 <= w < |s.vps| && WaitsIn(s.jobs, s.vps[w].frames, x, y);
    if y in s.jobs && s.jobs[y].place.Stacked? {
      StaysStacked(s, v, a, y);
    }
    if !Ends(s, v, y) {
      WaitsByJobs(s.jobs, s'.jobs, s.vps[w].frames, x, y);
      var fs, fs' := s.vps[w].frames, s'.vps[w].frames;
      if w != v {
        OtherVp(s, v, a, w);
      } else if |fs'| == |fs| + 1 {
        WaitsMore(s'.jobs, fs, Last(fs'), x, y);
        assert fs' == fs + [Last(fs')];
      } else if fs' == Pop(fs) {
        WaitsLess(s'.jobs, fs, x, y);
        assert IsFinished(s.jobs, y) ==> PlaceOk(s.vps, y, s.jobs[y]);
      }
      assert WaitsIn(s'.jobs, s'.vps[w].frames, x, y);
    }
  }

  lemma NewlyStacked(s: State, v: nat, a: Action, y: JobId)
    requires v < |s.vps| && Enabled(s, v, a) && IsClosing(a)
    requires y in Apply(s, v, a).jobs && Apply(s, v, a).jobs[y].place.Stacked?
    ensures y in s.jobs && (s.jobs[y].place.Stacked? || s.vps[v].pc == AtRun(y))
  {
  }

  /** Where no code forks or joins, only the start of a job brings new waits, all for it. */
  lemma NewWaits(s: State, v: nat, a: Action, x: JobId, y: JobId)
    requires Inv(s) && v < |s.vps| && Enabled(s, v, a) && IsClosing(a) && WaitsFor(Apply(s, v, a), x, y)
    ensures WaitsFor(s, x, y) || s.vps[v].pc == AtRun(y)
  {
    var s' := Apply(s, v, a);
    assert VpOk(s.jobs, v, s.vps[v]);
    StackChange(s, v, a);
    var w :| 0 <= w < |s'.vps| && WaitsIn(s'.jobs, s'.vps[w].frames, x, y);
    if y in s'.jobs && s'.jobs[y].place.Stacked? {
      NewlyStacked(s, v, a, y);
    }
    if s.vps[v].pc != AtRun(y) {
      WaitsByJobs(s'.jobs, s.jobs, s'.vps[w].frames, x, y);
      var fs, fs' := s.vps[w].frames, s'.vps[w].frames;
      if w != v {
        OtherVp(s, v, a, w);
      } else if |fs'| == |fs| + 1 {
        WaitsLess(s.jobs, fs', x, y);
      } else if fs != [] && fs' == Pop(fs) {
        WaitsMore(s.jobs, fs', Last(fs), x, y);
        assert fs == fs' + [Last(fs)];
      }
      assert WaitsIn(s.jobs, s.vps[w].frames, x, y);
    }
  }

  // ---------------------------------------------------------------- cycles

  lemma InCycle(s: State, c: seq<JobId>, i: nat)
    requires IsCycle(s, c) && i < |c|
    ensures exists y :: WaitsFor(s, c[i], y)
  {
    var k := if i == |c| - 1 then 0 else i;
    assert c[k] == c[i] && k + 1 < |c|;
    var m := k + 1;
    assert WaitsFor(s, c[k], c[m]);
  }

  /** A job that waits for nobody is in no cycle, so waits for it close none. */
  lemma CycleWithout(s: State, t: State, c: seq<JobId>, j: JobId)
    requires IsCycle(t, c)
    requires forall y :: !WaitsFor(t, j, y)
    requires forall x, y :: WaitsFor(t, x, y) && y != j ==> WaitsFor(s, x, y)
    ensures IsCycle(s, c)
  {
    forall i, k | 0 <= i && k == i + 1 < |c|
      ensures WaitsFor(s, c[i], c[k])
    {
      InCycle(t, c, k);
      assert WaitsFor(t, c[i], c[k]);
    }
  }

  lemma CycleAmong(s: State, t: State, c: seq<JobId>)
    requires IsCycle(t, c) && forall x, y :: WaitsFor(t, x, y) ==> WaitsFor(s, x, y)
    ensures IsCycle(s, c)
  {
  }

  /** No step of anybody ends a waiting cycle. */
  lemma CycleStays(s: State, v: nat, a: Action, c: seq<JobId>)
    requires Inv(s) && v < |s.vps| && Enabled(s, v, a) && IsCycle(s, c)
    ensures IsCycle(Apply(s, v, a), c)
  {
    var s' := Apply(s, v, a);
    forall x, y | WaitsFor(s, x, y)
      ensures WaitsFor(s', x, y) || Ends(s, v, y)
    {
      WaitsOn(s, v, a, x, y);
    }
    if j :| Ends(s, v, j) {
      forall y
        ensures !WaitsFor(s, j, y)
      {
        TopWaitsForNobody(s, v, y);
      }
      CycleWithout(s', s, c, j);
    } else {
      CycleAmong(s', s, c);
    }
  }

  /** Where no code forks or joins, no step makes a waiting cycle. */
  lemma NoNewCycle(s: State, v: nat, a: Action, c: seq<JobId>)
    requires Inv(s) && v < |s.vps| && Enabled(s, v, a) && IsClosing(a) && IsCycle(Apply(s, v, a), c)
    ensures IsCycle(s, c)
  {
    var s' := Apply(s, v, a);
    forall x, y | WaitsFor(s', x, y)
      ensures WaitsFor(s, x, y) || s.vps[v].pc == AtRun(y)
    {
      NewWaits(s, v, a, x, y);
    }
    if s.vps[v].pc.AtRun? {
      StepKeepsInv(s, v, a);
      forall y
        ensures !WaitsFor(s', s.vps[v].pc.job, y)
      {
        TopWaitsForNobody(s', v, y);
      }
      CycleWithout(s, s', c, s.vps[v].pc.job);
    } else {
      CycleAmong(s, s', c);
    }
  }

  /** Who waits has started and is not Finished. */
  lemma WaiterIsRunning(s: State, a: JobId, b: JobId)
    requires Inv(s) && WaitsFor(s, a, b)
    ensures a in s.jobs && s.jobs[a].starts == 1 && s.jobs[a].state != Finished
  {
    var v: nat :| v < |s.vps| && WaitsIn(s.jobs, s.vps[v].frames, a, b);
    assert exists i :: 0 <= i < |s.vps[v].frames| && JobOf(s.vps[v].frames[i]) == Some(a);
    var i: nat :| i < |s.vps[v].frames| && JobOf(s.vps[v].frames[i]) == Some(a);
    FrameHasJob(s, v, i);
    assert PlaceOk(s.vps, a, s.jobs[a]);
  }

  /** Waiting in a circle is for ever: in every continuation the same jobs wait for each other,
      and none of them ends. */
  lemma {:induction false} CycleIsForever(path: seq<State>, c: seq<JobId>)
    requires path != [] && Inv(path[0]) && IsPath(path) && IsCycle(path[0], c)
    ensures IsCycle(Last(path), c)
    ensures forall i :: 0 <= i < |c| ==> c[i] in Last(path).jobs && Last(path).jobs[c[i]].state != Finished
    decreases |path|
  {
    if |path| == 1 {
      forall i: nat | i < |c|
        ensures c[i] in path[0].jobs && path[0].jobs[c[i]].state != Finished
      {
        InCycle(path[0], c, i);
        var y :| WaitsFor(path[0], c[i], y);
        WaiterIsRunning(path[0], c[i], y);
      }
    } else {
      assert Step(path[0], path[1]);
      var v: nat, a: Action :| v < |path[0].vps| && Enabled(path[0], v, a) && path[1] == Apply(path[0], v, a);
      CycleStays(path[0], v, a, c);
      NextInv(path[0], path[1]);
      TailIsPath(path);
      CycleIsForever(path[1..], c);
    }
  }

  /** Without cycles, in every set of jobs there is one that waits for none of them. */
  lemma {:induction false} Unblocked(s: State, js: set<JobId>, c: seq<JobId>) returns (m: JobId)
    requires IsChain(s, c) && (forall i :: 0 <= i < |c| ==> c[i] in js)
    requires forall i, k :: 0 <= i < k < |c| ==> c[i] != c[k]
    requires forall d :: !IsCycle(s, d)
    ensures m in js && forall y :: y in js ==> !WaitsFor(s, m, y)
    decreases |js| - |c|
  {
    m := Last(c);
    if y :| y in js && WaitsFor(s, m, y) {
      var d := c + [y];
      forall i, k | 0 <= i && k == i + 1 < |d|
        ensures WaitsFor(s, d[i], d[k])
      {
        assert i < |c| && d[i] == c[i];
        if k < |c| {
          assert WaitsFor(s, c[i], c[k]);
        }
      }
      if i :| 0 <= i < |c| && c[i] == y {
        ChainSuffix(s, d, i);
        assert IsCycle(s, d[i..]);
        assert false;
      }
      DistinctInSet(d, js);
      m := Unblocked(s, js, d);
    }
  }

  lemma ChainSuffix(s: State, c: seq<JobId>, n: nat)
    requires IsChain(s, c) && n < |c|
    ensures IsChain(s, c[n..])
  {
    var d := c[n..];
    forall i, k | 0 <= i && k == i + 1 < |d|
      ensures WaitsFor(s, d[i], d[k])
    {
      assert d[i] == c[n + i] && d[k] == c[n + k];
    }
  }

  lemma {:induction false} DistinctInSet(c: seq<JobId>, js: set<JobId>)
    requires forall i :: 0 <= i < |c| ==> c[i] in js
    requires forall i, k :: 0 <= i < k < |c| ==> c[i] != c[k]
    ensures |c| <= |js|
    decreases |c|
  {
    if c != [] {
      DistinctInSet(Pop(c), js - {Last(c)});
    }
  }

  // ---------------------------------------------------------------- strict joins

  /** Every pending join is for a job forked by the code below it, through a list. */
  ghost predicate StrictJoins(s: State)
  {
    forall v, i :: 0 <= v < |s.vps| && 0 < i < |s.vps[v].frames| && s.vps[v].frames[i].Joining?
      ==> StrictJoin(s.jobs, s.vps[v].frames[i - 1], s.vps[v].frames[i].target)
  }

  ghost predicate StrictJoin(jobs: map<JobId, Job>, caller: Frame, target: JobId)
  {
    OwnJoin(jobs, caller, target) && !jobs[target].inlined
  }

  ghost predicate OwnJoin(jobs: map<JobId, Job>, caller: Frame, target: JobId)
  {
    target in jobs && jobs[target].forker == JobOf(caller)
  }

  /** Both kinds of waiting go to a later-started job: a buried job waits for the job above it
      on its stack, and a job waits for a started job it joins. */
  lemma WaitingGoesToLaterJobs(s: State, v: nat, i: nat, k: nat)
    requires Inv(s) && v < |s.vps| && i < k < |s.vps[v].frames| && s.vps[v].frames[i].Body?
    ensures s.vps[v].frames[i].job in s.jobs
    ensures var m := s.vps[v].frames[i].job;
            match s.vps[v].frames[k]
            case Body(above, _) => above in s.jobs && s.jobs[m].stamp < s.jobs[above].stamp
            case Joining(t) => k == i + 1 && StrictJoin(s.jobs, s.vps[v].frames[i], t) && s.jobs[t].starts == 1 ==>
                                 s.jobs[m].stamp < s.jobs[t].stamp
            case MainCode => true
  {
    var frames := s.vps[v].frames;
    assert VpOk(s.jobs, v, s.vps[v]);
    assert frames[i] in frames && FrameOk(s.jobs, v, frames[i]);
    assert frames[k] in frames && FrameOk(s.jobs, v, frames[k]);
    if frames[k].Joining? {
      assert LineageOk(s.jobs, s.clock, s.jobs[frames[k].target]);
    }
  }

  lemma StrictWaitGoesToLaterJob(s: State, a: JobId, b: JobId)
    requires Inv(s) && StrictJoins(s) && WaitsFor(s, a, b)
    ensures a in s.jobs && b in s.jobs && s.jobs[a].stamp < s.jobs[b].stamp
  {
    var v :| 0 <= v < |s.vps| && WaitsIn(s.jobs, s.vps[v].frames, a, b);
    var frames := s.vps[v].frames;
    var i, k :| 0 <= i < k < |frames| && JobOf(frames[i]) == Some(a)
      && (|| JobOf(frames[k]) == Some(b)
          || (k == i + 1 && frames[k] == Joining(b) && b in s.jobs && s.jobs[b].place.Stacked?));
    WaitingGoesToLaterJobs(s, v, i, k);
    if frames[k].Joining? {
      assert StrictJoin(s.jobs, frames[k - 1], frames[k].target);
      assert PlaceOk(s.vps, b, s.jobs[b]);
    }
  }

  lemma {:induction false} ChainGoesToLaterJobs(s: State, c: seq<JobId>)
    requires Inv(s) && StrictJoins(s) && IsChain(s, c) && |c| >= 2
    ensures c[0] in s.jobs && Last(c) in s.jobs && s.jobs[c[0]].stamp < s.jobs[Last(c)].stamp
    decreases |c|
  {
    var k := |c| - 1;
    var i := k - 1;
    assert WaitsFor(s, c[i], c[k]);
    StrictWaitGoesToLaterJob(s, c[i], c[k]);
    if |c| > 2 {
      var d := Pop(c);
      forall x, y | 0 <= x && y == x + 1 < |d|
        ensures WaitsFor(s, d[x], d[y])
      {
        assert WaitsFor(s, c[x], c[y]);
      }
      ChainGoesToLaterJobs(s, d);
    }
  }

  /** Joins for one's own listed jobs close no cycle. */
  lemma StrictIsAcyclic(s: State)
    requires Inv(s) && StrictJoins(s)
    ensures Acyclic(s)
  {
    forall c
      ensures !IsCycle(s, c)
    {
      if IsCycle(s, c) {
        ChainGoesToLaterJobs(s, c);
        assert false;
      }
    }
    forall v, i | 0 <= v < |s.vps| && 0 <= i < |s.vps[v].frames|
      ensures !HangsAt(s, v, i)
    {
      assert VpOk(s.jobs, v, s.vps[v]) && FrameFits(v, s.vps[v].frames, i);
      if s.vps[v].frames[i].Joining? {
        assert StrictJoin(s.jobs, s.vps[v].frames[i - 1], s.vps[v].frames[i].target);
      }
    }
  }
}
