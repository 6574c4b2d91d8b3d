/** Helping joins do not deadlock as long as nobody waits in a circle or for an inlined job; a
    join for a job that fork ran inline never returns. */
module SchedulerProgress {
  import opened Options
  import opened Scheduler
  import opened SchedulerInvariant
  import opened SchedulerSteps
  import opened SchedulerJobSteps
  import opened SchedulerResults
  import opened SchedulerWaiting

  // ---------------------------------------------------------------- what counts as progress

  /** The next action of VP `v` is useful: user code, a successful list operation, the start
      or end of a job, or the return of a join.  Failed tests, empty lists and moves of
      the idle counter with nothing in hand do not count. */
  predicate Productive(s: State, v: nat)
  {
    v < |s.vps| &&
    var p := s.vps[v];
    match p.pc
    case User => p.frames != []
    case Returned => true
    case AtCheck => p.frames != [] && Last(p.frames).Joining? && IsFinished(s.jobs, Last(p.frames).target)
    case AtPop => p.list != []
    case AtSteal(k) => k < |s.vps| && k != v && s.vps[k].list != []
    case AtUncount(found) => found.Some?
    case AtCount => false
    case Exited => false
    case _ => true
  }

  /** VP `v` acts `k` times on its own while the others stand still. */
  ghost function Solo(s: State, v: nat, k: nat): State
    decreases k
  {
    if k == 0 || v >= |s.vps| || !Enabled(s, v, Advance) then s else Solo(DoAdvance(s, v), v, k - 1)
  }

  /** Useful actions are possible actions. */
  lemma ProductiveIsEnabled(s: State, v: nat)
    requires Inv(s) && Productive(s, v)
    ensures exists a :: Enabled(s, v, a)
  {
    var p := s.vps[v];
    assert VpOk(s.jobs, v, p);
    if p.pc.User? {
      assert FrameFits(v, p.frames, |p.frames| - 1);
      if Last(p.frames).MainCode? {
        assert Enabled(s, v, Terminate);
      } else {
        assert Enabled(s, v, Return);
      }
    } else {
      assert Enabled(s, v, Advance);
    }
  }

  // ---------------------------------------------------------------- who is not blocked

  /** Frames above the last job of a stack: at most one join. */
  lemma AboveLastJob(s: State, v: nat, i: nat)
    requires Inv(s) && v < |s.vps| && i < |s.vps[v].frames| && s.vps[v].frames[i].Body?
    requires forall k :: i < k < |s.vps[v].frames| ==> !s.vps[v].frames[k].Body?
    ensures Last(s.vps[v].frames).Joining? ==> i == |s.vps[v].frames| - 2
    ensures !Last(s.vps[v].frames).Joining? ==> i == |s.vps[v].frames| - 1
  {
    var frames := s.vps[v].frames;
    assert VpOk(s.jobs, v, s.vps[v]);
    assert i + 1 < |frames| ==> FrameFits(v, frames, i + 1);
    assert i + 2 < |frames| ==> FrameFits(v, frames, i + 2);
  }

  /** A job that waits for nobody is on top of its stack, or just below a join for a Finished
      job, if nothing waits in a list or a hand. */
  lemma FreeJobIsUnblocked(s: State, m: JobId, v: nat)
    requires Inv(s) && !InlinedJoinPending(s) && v < |s.vps|
    requires m in s.jobs && s.jobs[m].place == Stacked(v)
    requires forall j :: j in s.jobs && s.jobs[j].place.Stacked? ==> !WaitsFor(s, m, j)
    requires forall j :: j in s.jobs ==> !s.jobs[j].place.Listed? && !s.jobs[j].place.Held?
    ensures s.vps[v].frames != []
    ensures Last(s.vps[v].frames).Joining? ==> IsFinished(s.jobs, Last(s.vps[v].frames).target)
  {
    var frames := s.vps[v].frames;
    assert VpOk(s.jobs, v, s.vps[v]) && PlaceOk(s.vps, m, s.jobs[m]);
    var i :| 0 <= i < |frames| && frames[i] == Body(m, s.jobs[m].inlined);
    forall k | i < k < |frames|
      ensures !frames[k].Body?
    {
      if frames[k].Body? {
        FrameHasJob(s, v, k);
        assert JobOf(frames[k]) == Some(frames[k].job);
        assert WaitsIn(s.jobs, frames, m, frames[k].job);
      }
    }
    AboveLastJob(s, v, i);
    if Last(frames).Joining? {
      var k := i + 1;
      var t := frames[k].target;
      assert frames[k] in frames && FrameOk(s.jobs, v, frames[k]);
      assert JobOf(frames[i]) == Some(m) && frames[k] == Joining(t);
      assert s.jobs[t].place.Stacked? ==> WaitsIn(s.jobs, frames, m, t);
      assert !HangsAt(s, v, k);
      assert PlaceOk(s.vps, t, s.jobs[t]);
    }
  }

  // ---------------------------------------------------------------- one VP on its own

  /** With every list empty, a VP inside a join comes back to the test of the joined job. */
  lemma {:induction false} BackAtCheck(s: State, v: nat, k: nat) returns (n: nat)
    requires v < |s.vps| && s.vps[v].pc == AtSteal(k) && s.vps[v].frames != []
    requires forall w :: 0 <= w < |s.vps| ==> s.vps[w].list == []
    ensures n <= |s.vps| + 1
    ensures |Solo(s, v, n).vps| == |s.vps| && Solo(s, v, n).jobs == s.jobs
    ensures Solo(s, v, n).vps[v].pc.AtCheck? && Solo(s, v, n).vps[v].frames == s.vps[v].frames
    ensures k <= |s.vps| ==> n <= |s.vps| - k + 1
    decreases |s.vps| - k
  {
    var s' := DoAdvance(s, v);
    if k >= |s.vps| {
      n := 1;
      assert Solo(s, v, 1) == Solo(s', v, 0) == s';
    } else {
      assert s'.vps[v].list == [];
      assert forall w :: 0 <= w < |s'.vps| ==> s'.vps[w].list == [];
      var n' := BackAtCheck(s', v, k + 1);
      n := n' + 1;
      assert Solo(s, v, n) == Solo(s', v, n');
    }
  }

  /** A VP whose own list is not empty gets to a useful action after at most one other. */
  lemma OwnerAdvances(s: State, v: nat) returns (n: nat)
    requires Inv(s) && v < |s.vps| && s.vps[v].list != []
    ensures n <= 1 && Productive(Solo(s, v, n), v)
  {
    var p := s.vps[v];
    assert VpOk(s.jobs, v, p);
    if Productive(s, v) {
      n := 0;
    } else {
      assert p.pc.AtCheck?;
      n := 1;
      assert Solo(s, v, 1) == Solo(DoAdvance(s, v), v, 0);
    }
  }

  lemma PopAndBack(s: State, v: nat) returns (n: nat)
    requires v < |s.vps| && s.vps[v].frames != [] && s.vps[v].pc.AtPop?
    requires forall w :: 0 <= w < |s.vps| ==> s.vps[w].list == []
    ensures n <= |s.vps| + 2
    ensures |Solo(s, v, n).vps| == |s.vps| && Solo(s, v, n).jobs == s.jobs
    ensures Solo(s, v, n).vps[v].pc.AtCheck? && Solo(s, v, n).vps[v].frames == s.vps[v].frames
  {
    var s' := DoAdvance(s, v);
    assert s'.vps[v].pc == AtSteal(0) && s'.vps[v].list == [];
    assert forall w :: 0 <= w < |s'.vps| ==> s'.vps[w].list == [];
    var k := BackAtCheck(s', v, 0);
    n := k + 1;
    assert Solo(s, v, n) == Solo(s', v, k);
  }

  lemma JoinerAdvances(s: State, v: nat) returns (n: nat)
    requires v < |s.vps| && s.vps[v].frames != [] && PcFits(s.vps[v])
    requires forall w :: 0 <= w < |s.vps| ==> s.vps[w].list == []
    requires Last(s.vps[v].frames).Joining? ==> IsFinished(s.jobs, Last(s.vps[v].frames).target)
    ensures n <= |s.vps| + 2 && Productive(Solo(s, v, n), v)
  {
    if Productive(s, v) {
      n := 0;
    } else if s.vps[v].pc.AtSteal? {
      n := BackAtCheck(s, v, s.vps[v].pc.victim);
    } else {
      n := PopAndBack(s, v);
    }
  }

  // ---------------------------------------------------------------- deadlock freedom

  lemma HandAdvances(s: State, v: nat, j: JobId)
    requires v < |s.vps| && InHand(s.vps[v].pc) == Some(j)
    ensures Productive(s, v) && Solo(s, v, 0) == s
  {
  }

  /** Deadlock freedom.  In every reachable state in which some listed job is unfinished, and
      nobody waits in a circle or for an inlined job, some VP reaches a useful action within
      `n + 2` actions of its own, without help from any other VP. */
  lemma NoDeadlock(n: nat, s: State, j: JobId) returns (v: nat, k: nat)
    requires Reachable(n, s) && Acyclic(s)
    requires j in s.jobs && !s.jobs[j].inlined && s.jobs[j].state != Finished
    ensures v < n && k <= n + 2 && Productive(Solo(s, v, k), v)
  {
    ReachableInv(n, s);
    if w :| 0 <= w < |s.vps| && s.vps[w].list != [] {
      v := w;
      k := OwnerAdvances(s, v);
    } else if i :| i in s.jobs && s.jobs[i].place.Held? {
      assert PlaceOk(s.vps, i, s.jobs[i]);
      v, k := s.jobs[i].place.vp, 0;
      HandAdvances(s, v, i);
    } else {
      NothingListed(s);
      var stacked := set i | i in s.jobs && s.jobs[i].place.Stacked?;
      assert PlaceOk(s.vps, j, s.jobs[j]);
      var m := Unblocked(s, stacked, [j]);
      assert PlaceOk(s.vps, m, s.jobs[m]);
      v := s.jobs[m].place.vp;
      FreeJobIsUnblocked(s, m, v);
      assert VpOk(s.jobs, v, s.vps[v]);
      k := JoinerAdvances(s, v);
    }
  }

  lemma NothingListed(s: State)
    requires Inv(s) && forall w :: 0 <= w < |s.vps| ==> s.vps[w].list == []
    ensures forall j :: j in s.jobs ==> !s.jobs[j].place.Listed?
  {
    forall j | j in s.jobs
      ensures !s.jobs[j].place.Listed?
    {
      assert PlaceOk(s.vps, j, s.jobs[j]);
    }
  }

  // ---------------------------------------------------------------- inlined jobs

  /** A job that fork ran inline is never marked Finished. */
  lemma InlinedNeverFinished(n: nat, s: State, t: JobId)
    requires Reachable(n, s) && t in s.jobs && s.jobs[t].inlined
    ensures s.jobs[t].state == Ready
  {
    ReachableInv(n, s);
    assert PlaceOk(s.vps, t, s.jobs[t]);
  }

  /** A join for an inlined job never returns: it is still pending at the end of every
      continuation, and the join's VP never leaves. */
  lemma {:induction false} InlinedJoinNeverReturns(path: seq<State>, v: nat, fs: seq<Frame>)
    requires path != [] && Inv(path[0]) && IsPath(path)
    requires fs != [] && Last(fs).Joining? && Under(path[0], v, fs)
    requires Last(fs).target in path[0].jobs && path[0].jobs[Last(fs).target].inlined
    ensures Under(Last(path), v, fs) && !Last(path).vps[v].pc.Exited?
    decreases |path|
  {
    if |path| == 1 {
      assert VpOk(path[0].jobs, v, path[0].vps[v]);
    } else {
      assert Step(path[0], path[1]);
      NextInv(path[0], path[1]);
      UnderStep(path[0], path[1], v, fs);
      StaysInlined(path[0], path[1], Last(fs).target);
      assert PlaceOk(path[1].vps, Last(fs).target, path[1].jobs[Last(fs).target]);
      TailIsPath(path);
      InlinedJoinNeverReturns(path[1..], v, fs);
    }
  }

  /** A join for a job that lies below it on the same stack, as when a job joins itself or the
      job that waits for it, never returns either. */
  lemma {:induction false} AncestorJoinNeverReturns(path: seq<State>, v: nat, fs: seq<Frame>, f: Frame)
    requires path != [] && Inv(path[0]) && IsPath(path)
    requires fs != [] && Last(fs).Joining? && Under(path[0], v, fs)
    requires f in fs && f.Body? && f.job == Last(fs).target
    ensures Under(Last(path), v, fs)
    decreases |path|
  {
    if |path| > 1 {
      assert Step(path[0], path[1]);
      NextInv(path[0], path[1]);
      UnderStep(path[0], path[1], v, fs);
      assert VpOk(path[1].jobs, v, path[1].vps[v]);
      KeptByPop(fs, f);
      assert JoinReturned(path[1], v, fs) ==> f in path[1].vps[v].frames && FrameOk(path[1].jobs, v, f);
      TailIsPath(path);
      AncestorJoinNeverReturns(path[1..], v, fs, f);
    }
  }
}
