/** What the scheduler promises: no job is lost or run twice, the idle counter is exact,
    nobody leaves early, and the current job is always known. */
module SchedulerResults {
  import opened Options
  import opened HeapOrder
  import opened HeapOperations
  import opened Scheduler
  import opened SchedulerInvariant
  import opened SchedulerSteps
  import opened SchedulerJobSteps

  // ---------------------------------------------------------------- exactly once

  /** The concrete places a job can be found at, read off the real fields only. */
  datatype Spot = ListSlot(vp: nat, slot: nat) | Hand(vp: nat) | StackSlot(vp: nat, slot: nat) | Completed

  ghost predicate IsAt(s: State, j: JobId, spot: Spot)
    requires j in s.jobs
  {
    match spot
    case ListSlot(v, i) => v < |s.vps| && i < |s.vps[v].list| && s.vps[v].list[i].job == j
    case Hand(v) => v < |s.vps| && InHand(s.vps[v].pc) == Some(j)
    case StackSlot(v, i) => v < |s.vps| && i < |s.vps[v].frames| && s.vps[v].frames[i].Body?
      && s.vps[v].frames[i].job == j
    case Completed => s.jobs[j].state == Finished
  }

  ghost function PlaceOf(spot: Spot): Place
  {
    match spot
    case ListSlot(v, _) => Listed(v)
    case Hand(v) => Held(v)
    case StackSlot(v, _) => Stacked(v)
    case Completed => Gone
  }

  lemma SpotPlace(s: State, j: JobId, spot: Spot)
    requires Inv(s) && j in s.jobs && IsAt(s, j, spot)
    ensures s.jobs[j].place == PlaceOf(spot)
    ensures spot.ListSlot? ==> EntryOk(s.jobs, spot.vp, s.vps[spot.vp].counter, s.vps[spot.vp].list[spot.slot])
  {
    assert PlaceOk(s.vps, j, s.jobs[j]);
    match spot
    case ListSlot(v, i) =>
      assert VpOk(s.jobs, v, s.vps[v]);
      assert EntryOk(s.jobs, v, s.vps[v].counter, s.vps[v].list[i]);
    case Hand(v) =>
      assert VpOk(s.jobs, v, s.vps[v]);
    case StackSlot(v, i) =>
      assert VpOk(s.jobs, v, s.vps[v]);
      assert FrameOk(s.jobs, v, s.vps[v].frames[i]);
    case Completed =>
  }

  lemma {:induction false} TwiceInMultiset<T>(s: seq<T>, i: nat, k: nat)
    requires i < k < |s| && s[i] == s[k]
    ensures multiset(s)[s[i]] >= 2
  {
    assert s == s[..k] + s[k..];
    assert s[i] in s[..k] && s[k] in s[k..];
  }

  /** No job is in two places at once. */
  lemma AtMostOneSpot(n: nat, s: State, j: JobId, a: Spot, b: Spot)
    requires Reachable(n, s) && j in s.jobs && IsAt(s, j, a) && IsAt(s, j, b)
    ensures a == b
  {
    ReachableInv(n, s);
    SpotPlace(s, j, a);
    SpotPlace(s, j, b);
    if a.StackSlot? {
      assert VpOk(s.jobs, a.vp, s.vps[a.vp]);
    }
    if a.ListSlot? && a != b {
      var list := s.vps[a.vp].list;
      assert VpOk(s.jobs, a.vp, s.vps[a.vp]);
      assert multiset(list)[list[a.slot]] <= 1;
      if a.slot < b.slot {
        TwiceInMultiset(list, a.slot, b.slot);
      } else {
        TwiceInMultiset(list, b.slot, a.slot);
      }
    }
  }

  /** Every job that fork put into a list is in some place: a list while it is Ready and
      not started, a hand, a call stack while it is Running and started once, or it is
      Finished and was started once. */
  lemma SomeSpot(n: nat, s: State, j: JobId) returns (spot: Spot)
    requires Reachable(n, s) && j in s.jobs && !s.jobs[j].inlined
    ensures IsAt(s, j, spot)
    ensures spot.ListSlot? ==> s.jobs[j].state == Ready && s.jobs[j].starts == 0
    ensures spot.Hand? ==> s.jobs[j].state != Finished && s.jobs[j].starts == 0
    ensures spot.StackSlot? ==> s.jobs[j].state == Running && s.jobs[j].starts == 1
    ensures spot.Completed? ==> s.jobs[j].starts == 1
  {
    ReachableInv(n, s);
    var job := s.jobs[j];
    assert PlaceOk(s.vps, j, job);
    match job.place
    case Listed(v) =>
      var i :| 0 <= i < |s.vps[v].list| && s.vps[v].list[i] == Entry(job.id, j);
      spot := ListSlot(v, i);
    case Held(v) =>
      assert VpOk(s.jobs, v, s.vps[v]);
      spot := Hand(v);
    case Stacked(v) =>
      assert VpOk(s.jobs, v, s.vps[v]);
      assert FrameOk(s.jobs, v, Body(j, false));
      var i :| 0 <= i < |s.vps[v].frames| && s.vps[v].frames[i] == Body(j, false);
      spot := StackSlot(v, i);
    case Gone =>
      spot := Completed;
  }

  /** A job's function is called at most once, however the job was forked. */
  lemma StartedAtMostOnce(n: nat, s: State, j: JobId)
    requires Reachable(n, s) && j in s.jobs
    ensures s.jobs[j].starts <= 1
    ensures s.jobs[j].state == Finished ==> s.jobs[j].starts == 1
  {
    ReachableInv(n, s);
    assert PlaceOk(s.vps, j, s.jobs[j]);
    if s.jobs[j].state == Finished {
      SpotPlace(s, j, Completed);
    }
  }

  lemma FrameHasJob(s: State, v: nat, i: nat)
    requires Inv(s) && v < |s.vps| && i < |s.vps[v].frames| && s.vps[v].frames[i].Body?
    ensures s.vps[v].frames[i].job in s.jobs && s.jobs[s.vps[v].frames[i].job].place == Stacked(v)
  {
    assert VpOk(s.jobs, v, s.vps[v]);
    assert FrameOk(s.jobs, v, s.vps[v].frames[i]);
  }

  /** A job is on one stack, once; the main program only at the bottom of VP 0. */
  lemma BodyUnique(s: State, v: nat, i: nat, w: nat, k: nat)
    requires Inv(s) && v < |s.vps| && i < |s.vps[v].frames| && w < |s.vps| && k < |s.vps[w].frames|
    requires s.vps[v].frames[i].Body? && s.vps[w].frames[k].Body?
    requires s.vps[v].frames[i].job == s.vps[w].frames[k].job
    ensures v == w && i == k
  {
    FrameHasJob(s, v, i);
    FrameHasJob(s, w, k);
    assert VpOk(s.jobs, v, s.vps[v]);
  }

  lemma MainAtBottom(s: State, v: nat, i: nat)
    requires Inv(s) && v < |s.vps| && i < |s.vps[v].frames| && s.vps[v].frames[i].MainCode?
    ensures v == 0 && i == 0
  {
    assert VpOk(s.jobs, v, s.vps[v]);
    assert FrameFits(v, s.vps[v].frames, i);
  }

  /** The compare-and-swaps whose result nobody looks at succeed, except the last one of an
      inlined job, which fails. */
  lemma UncheckedCas(n: nat, s: State, v: nat)
    requires Reachable(n, s) && v < n
    ensures |s.vps| == n
    ensures forall j :: s.vps[v].pc == Popped(j) || s.vps[v].pc == Stolen(j) ==> j in s.jobs && s.jobs[j].state == Ready
    ensures s.vps[v].pc.Returned? ==>
              && s.vps[v].frames != [] && Last(s.vps[v].frames).Body?
              && Last(s.vps[v].frames).job in s.jobs
              && s.jobs[Last(s.vps[v].frames).job].state == if Last(s.vps[v].frames).inlined then Ready else Running
  {
    ReachableInv(n, s);
    assert VpOk(s.jobs, v, s.vps[v]);
    if s.vps[v].pc.Returned? {
      assert Last(s.vps[v].frames) in s.vps[v].frames;
      assert FrameOk(s.jobs, v, Last(s.vps[v].frames));
    }
  }

  // ---------------------------------------------------------------- the idle counter

  ghost function CountedVps(vps: seq<Vp>): set<int>
  {
    set v | 0 <= v < |vps| && Counted(vps[v])
  }

  lemma {:induction false} CountIsCardinality(vps: seq<Vp>)
    ensures CountIdle(vps) == |CountedVps(vps)|
    decreases |vps|
  {
    if vps != [] {
      var rest := Pop(vps);
      CountIsCardinality(rest);
      if Counted(Last(vps)) {
        assert CountedVps(vps) == CountedVps(rest) + {|vps| - 1};
      } else {
        assert CountedVps(vps) == CountedVps(rest);
      }
    }
  }

  /** `idle_vps` is the number of VPs between the add and the subtract of the run loop plus
      the number of VPs that left it. */
  lemma IdleIsExact(n: nat, s: State)
    requires Reachable(n, s)
    ensures s.idle == |CountedVps(s.vps)| <= n == |s.vps|
  {
    ReachableInv(n, s);
    CountIsCardinality(s.vps);
    CountBound(s.vps);
  }

  /** When everybody is counted idle, every list is empty and every job that is not yet
      finished is in the hand of a thief that has not been uncounted. */
  lemma AllIdleMeansNothingListed(n: nat, s: State)
    requires Reachable(n, s) && s.idle == n
    ensures |s.vps| == n
    ensures forall v :: 0 <= v < n ==> s.vps[v].list == [] && s.vps[v].frames == []
    ensures forall j :: j in s.jobs && !s.jobs[j].inlined && s.jobs[j].state != Finished ==>
              exists v :: 0 <= v < n && (s.vps[v].pc == Stolen(j) || s.vps[v].pc == AtUncount(Some(j)))
  {
    ReachableInv(n, s);
    CountBound(s.vps);
    forall v | 0 <= v < n
      ensures s.vps[v].list == [] && s.vps[v].frames == []
    {
      assert Counted(s.vps[v]) && VpOk(s.jobs, v, s.vps[v]);
    }
    forall j | j in s.jobs && !s.jobs[j].inlined && s.jobs[j].state != Finished
      ensures exists v :: 0 <= v < n && (s.vps[v].pc == Stolen(j) || s.vps[v].pc == AtUncount(Some(j)))
    {
      var spot := SomeSpot(n, s, j);
      assert spot.Hand?;
      assert Counted(s.vps[spot.vp]);
    }
  }

  ghost predicate MainEnded(s: State)
    requires s.vps != []
  {
    MainCode !in s.vps[0].frames
  }

  /** No VP leaves the run loop before the main program has entered it in terminate. */
  lemma NobodyLeavesEarly(n: nat, s: State, v: nat)
    requires Reachable(n, s) && v < |s.vps| && s.vps[v].pc.Exited?
    ensures MainEnded(s)
  {
    ReachableInv(n, s);
  }

  /** A VP leaves exactly when it finds every other VP counted: idle, or gone already. */
  lemma LeavesIff(n: nat, s: State, v: nat)
    requires Reachable(n, s) && v < |s.vps| && s.vps[v].pc.AtCount?
    ensures Apply(s, v, Advance).vps[v].pc.Exited? <==> forall w :: 0 <= w < |s.vps| && w != v ==> Counted(s.vps[w])
  {
    ReachableInv(n, s);
    var all := s.vps[v := s.vps[v].(pc := Exited)];
    CountUpdate(s.vps, v, s.vps[v].(pc := Exited));
    CountBound(all);
    assert forall w :: 0 <= w < |s.vps| && w != v ==> all[w] == s.vps[w];
    if forall w :: 0 <= w < |all| ==> Counted(all[w]) {
      forall w | 0 <= w < |s.vps| && w != v
        ensures Counted(s.vps[w])
      {
        assert Counted(all[w]);
      }
    }
  }

  /** The last VP leaves as soon as it finds its own list empty. */
  lemma LastVpLeaves(n: nat, s: State, v: nat)
    requires Reachable(n, s) && v < |s.vps| && s.vps[v].pc.AtCount?
    requires forall w :: 0 <= w < |s.vps| && w != v ==> s.vps[w].pc.Exited?
    ensures Apply(s, v, Advance).vps[v].pc.Exited?
  {
    ReachableInv(n, s);
    var all := s.vps[v := s.vps[v].(pc := Exited)];
    CountUpdate(s.vps, v, s.vps[v].(pc := Exited));
    CountBound(all);
    assert forall w :: 0 <= w < |all| ==> Counted(all[w]);
  }

  /** Shutdown loses nothing: once all VPs have left, no list, hand or stack holds a job,
      and exactly the jobs that were not inlined are Finished. */
  lemma NoJobLostAtShutdown(n: nat, s: State)
    requires Reachable(n, s)
    requires forall v :: 0 <= v < |s.vps| ==> s.vps[v].pc.Exited?
    ensures forall v :: 0 <= v < |s.vps| ==> s.vps[v].list == [] && s.vps[v].frames == [] && s.vps[v].context == []
    ensures forall j :: j in s.jobs ==> s.jobs[j].starts == 1 && (s.jobs[j].state == Finished <==> !s.jobs[j].inlined)
  {
    ReachableInv(n, s);
    forall v | 0 <= v < |s.vps|
      ensures s.vps[v].list == [] && s.vps[v].frames == [] && s.vps[v].context == []
    {
      assert VpOk(s.jobs, v, s.vps[v]);
    }
    forall j | j in s.jobs
      ensures s.jobs[j].place == Gone
    {
      assert PlaceOk(s.vps, j, s.jobs[j]);
    }
    forall j | j in s.jobs
      ensures s.jobs[j].starts == 1 && (s.jobs[j].state == Finished <==> !s.jobs[j].inlined)
    {
      assert PlaceOk(s.vps, j, s.jobs[j]);
    }
  }

  lemma ExitedStep(s: State, s': State, v: nat)
    requires Inv(s) && Step(s, s') && v < |s.vps| && s.vps[v].pc.Exited?
    ensures |s'.vps| == |s.vps| && s'.vps[v] == s.vps[v] && s'.vps[v].list == []
  {
    assert VpOk(s.jobs, v, s.vps[v]);
    var w: nat, a: Action :| w < |s.vps| && Enabled(s, w, a) && s' == Apply(s, w, a);
    OtherVp(s, w, a, v);
  }

  /** An exited VP never acts again, and its list stays empty for the rest of the run. */
  lemma {:induction false} ExitedStaysEmpty(path: seq<State>, v: nat)
    requires path != [] && Inv(path[0]) && IsPath(path) && v < |path[0].vps| && path[0].vps[v].pc.Exited?
    ensures forall i :: 0 <= i < |path| ==>
              v < |path[i].vps| && path[i].vps[v] == path[0].vps[v] && path[i].vps[v].list == []
    decreases |path|
  {
    assert VpOk(path[0].jobs, v, path[0].vps[v]);
    if |path| > 1 {
      assert Step(path[0], path[1]);
      ExitedStep(path[0], path[1], v);
      NextInv(path[0], path[1]);
      TailIsPath(path);
      var rest := path[1..];
      ExitedStaysEmpty(rest, v);
      forall i | 0 <= i < |path|
        ensures v < |path[i].vps| && path[i].vps[v] == path[0].vps[v] && path[i].vps[v].list == []
      {
        if i > 0 {
          assert path[i] == rest[i - 1];
        }
      }
    }
  }

  // ---------------------------------------------------------------- the order of a list

  /** fork_job appends to the heap array: the ids in a list stay below the VP's counter. */
  lemma ForkAppends(n: nat, s: State, v: nat, child: JobId)
    requires Reachable(n, s) && v < |s.vps| && Enabled(s, v, Fork(child)) && |s.vps[v].context| <= INLINE_DEPTH
    ensures Apply(s, v, Fork(child)).vps[v].list == s.vps[v].list + [Entry(s.vps[v].counter, child)]
  {
    ReachableInv(n, s);
    assert VpOk(s.jobs, v, s.vps[v]);
    ForkVp(s.jobs, DoFork(s, v, child).jobs, v, s.vps[v], child);
  }

  /** As long as no thief touches it, a list stays in the order in which its jobs were
      forked. */
  lemma UnstolenStaysAscending(n: nat, s: State, w: nat, a: Action, v: nat)
    requires Reachable(n, s) && w < |s.vps| && v < |s.vps| && Enabled(s, w, a)
    requires Ascending(s.vps[v].list) && s.vps[w].pc != AtSteal(v)
    ensures |Apply(s, w, a).vps| == |s.vps| && Ascending(Apply(s, w, a).vps[v].list)
  {
    ReachableInv(n, s);
    assert VpOk(s.jobs, v, s.vps[v]);
    if w != v {
      OtherVp(s, w, a, v);
    } else if a.Fork? && |s.vps[v].context| <= INLINE_DEPTH {
      ForkAppends(n, s, v, a.child);
      forall e | e in s.vps[v].list
        ensures e.id < s.vps[v].counter
      {
        assert EntryOk(s.jobs, v, s.vps[v].counter, e);
      }
    } else {
      OwnListShrinks(s, v, a);
    }
  }

  lemma OwnListShrinks(s: State, v: nat, a: Action)
    requires v < |s.vps| && Enabled(s, v, a) && s.vps[v].pc != AtSteal(v)
    requires a.Fork? ==> |s.vps[v].context| > INLINE_DEPTH
    ensures |Apply(s, v, a).vps| == |s.vps|
    ensures var l, l' := s.vps[v].list, Apply(s, v, a).vps[v].list; l' == l || (l != [] && l' == AfterExtractLast(l))
  {
  }

  /** Then the owner works last-in first-out, and a thief takes the oldest job. */
  lemma NewestForOwnerOldestForThief(n: nat, s: State, v: nat, w: nat)
    requires Reachable(n, s) && v < |s.vps| && w < |s.vps| && w != v
    requires s.vps[v].list != [] && Ascending(s.vps[v].list)
    ensures s.vps[v].pc.AtPop? ==> exists e :: e in s.vps[v].list && Apply(s, v, Advance).vps[v].pc == Popped(e.job)
                                                && forall d :: d in s.vps[v].list ==> d.id <= e.id
    ensures s.vps[w].pc == AtSteal(v) ==>
            exists e :: e in s.vps[v].list && Apply(s, w, Advance).vps[w].pc == Stolen(e.job)
                                                && forall d :: d in s.vps[v].list ==> e.id <= d.id
  {
    var list := s.vps[v].list;
    assert Last(list) in list && list[0] in list;
    assert forall d :: d in list ==> list[0].id <= d.id <= Last(list).id;
  }

  /** How a list changes when nobody steals from it: it grows by a newer job at the end, or
      loses its last element to a pop of its owner, or stays. */
  ghost predicate LifoStep(s: State, s': State, v: nat)
    requires v < |s.vps| && v < |s'.vps|
  {
    var p, p' := s.vps[v], s'.vps[v];
    || p'.list == p.list
    || (exists j :: p'.list == p.list + [Entry(p.counter, j)] && forall d :: d in p.list ==> d.id < p.counter)
    || (p.pc.AtPop? && p.list != [] && p'.list == Pop(p.list) && p'.pc == Popped(Last(p.list).job)
        && forall d :: d in p.list ==> d.id <= Last(p.list).id)
  }

  /** A step that takes nothing from the list of `v` by way of steal_job. */
  ghost predicate StepWithoutTheft(s: State, s': State, v: nat)
  {
    exists w: nat, a: Action ::
      w < |s.vps| && Enabled(s, w, a) && s' == Apply(s, w, a)
        && (s.vps[w].pc == AtSteal(v) ==> v == w || v >= |s.vps| || s.vps[v].list == [])
  }

  lemma LifoOneStep(n: nat, s: State, s': State, v: nat)
    requires Reachable(n, s) && v < |s.vps| && StepWithoutTheft(s, s', v) && Ascending(s.vps[v].list)
    ensures Reachable(n, s') && |s'.vps| == |s.vps| && LifoStep(s, s', v) && Ascending(s'.vps[v].list)
  {
    var w: nat, a: Action :| w < |s.vps| && Enabled(s, w, a) && s' == Apply(s, w, a)
      && (s.vps[w].pc == AtSteal(v) ==> v == w || s.vps[v].list == []);
    Then(n, s, w, a);
    if w != v {
      OtherVp(s, w, a, v);
    } else if a.Fork? && |s.vps[v].context| <= INLINE_DEPTH {
      UnstolenStaysAscending(n, s, w, a, v);
      ForkAppends(n, s, v, a.child);
      ReachableInv(n, s);
      assert VpOk(s.jobs, v, s.vps[v]);
      forall d | d in s.vps[v].list
        ensures d.id < s.vps[v].counter
      {
        assert EntryOk(s.jobs, v, s.vps[v].counter, d);
      }
    } else {
      OwnListPops(s, v, a);
    }
  }

  /** A VP takes nothing from its own list but in get_job. */
  lemma OwnListPops(s: State, v: nat, a: Action)
    requires v < |s.vps| && Enabled(s, v, a) && (a.Fork? ==> |s.vps[v].context| > INLINE_DEPTH)
    ensures |Apply(s, v, a).vps| == |s.vps|
    ensures var p, p' := s.vps[v], Apply(s, v, a).vps[v];
            || p'.list == p.list
            || (p.pc.AtPop? && p.list != [] && p'.list == Pop(p.list) && p'.pc == Popped(Last(p.list).job))
  {
  }

  /** Last in, first out, over any path: as long as thieves take nothing from a list that was
      empty at the start, it changes like a stack, and every pop of its owner returns the
      newest job in it. */
  lemma {:induction false} UnstolenListIsAStack(n: nat, path: seq<State>, v: nat)
    requires path != [] && Reachable(n, path[0]) && v < |path[0].vps| && Ascending(path[0].vps[v].list)
    requires forall i :: 0 <= i < |path| - 1 ==> StepWithoutTheft(path[i], path[i + 1], v)
    ensures forall i :: 0 <= i < |path| ==> v < |path[i].vps| && Ascending(path[i].vps[v].list)
    ensures forall i :: 0 <= i < |path| - 1 ==> LifoStep(path[i], path[i + 1], v)
    decreases |path|
  {
    if |path| > 1 {
      assert StepWithoutTheft(path[0], path[1], v);
      LifoOneStep(n, path[0], path[1], v);
      var rest := path[1..];
      forall i | 0 <= i < |rest| - 1
        ensures StepWithoutTheft(rest[i], rest[i + 1], v)
      {
        assert StepWithoutTheft(path[i + 1], path[i + 2], v);
      }
      UnstolenListIsAStack(n, rest, v);
      forall i | 0 <= i < |path|
        ensures v < |path[i].vps| && Ascending(path[i].vps[v].list)
        ensures i < |path| - 1 ==> LifoStep(path[i], path[i + 1], v)
      {
        if i > 0 {
          assert path[i] == rest[i - 1];
          assert i < |path| - 1 ==> path[i + 1] == rest[i];
        }
      }
    }
  }

  // ---------------------------------------------------------------- context discipline

  ghost predicate NothingInlined(frames: seq<Frame>)
  {
    forall f :: f in frames && f.Body? ==> !f.inlined
  }

  /** `jobs` are the jobs of every second frame, and between them lie joins. */
  ghost predicate Alternates(frames: seq<Frame>, jobs: seq<Option<JobId>>)
  {
    && 2 * |jobs| <= |frames| <= 2 * |jobs| + 1
    && forall k :: 0 <= k < |jobs| ==> frames[2 * k + 1].Joining? && jobs[k] == JobOf(frames[2 * k])
  }

  /** Without inlined calls, user frames and joins alternate, and the suspended jobs are the
      jobs whose frames lie below a join. */
  lemma {:induction false} SuspendedAre(v: nat, frames: seq<Frame>)
    requires forall i :: 0 <= i < |frames| ==> FrameFits(v, frames, i)
    requires NothingInlined(frames)
    ensures Alternates(frames, SuspendedJobs(frames))
    ensures frames != [] ==> (Last(frames).Joining? <==> |frames| == 2 * |SuspendedJobs(frames)|)
    ensures frames != [] && !Last(frames).Joining? ==> CurrentOf(frames) == JobOf(Last(frames))
    decreases |frames|
  {
    if frames != [] {
      var rest := Pop(frames);
      PopShape(v, frames);
      SuspendedAre(v, rest);
      assert FrameFits(v, frames, |frames| - 1);
      assert Last(frames) in frames;
      if rest != [] {
        assert Last(rest) == frames[|frames| - 2];
      }
    }
  }

  /** At every point of a run, on every VP and whatever its call stack holds: context_stack
      lists the jobs suspended in the pending joins, outermost first; a join that is about to
      test its target has not suspended its caller yet.  While user code runs, current_job
      is the job whose code it is exactly if fork_job is not running that job inline. */
  lemma ContextDiscipline(n: nat, s: State, v: nat)
    requires Reachable(n, s) && v < |s.vps|
    ensures var p := s.vps[v];
            p.context == SuspendedJobs(if p.pc.AtCheck? && p.frames != [] then Pop(p.frames) else p.frames)
    ensures var p := s.vps[v];
            p.pc.User? ==>
              p.frames != [] && (p.current == JobOf(Last(p.frames)) <==> !IsInlined(Last(p.frames)))
  {
    ReachableInv(n, s);
    var p := s.vps[v];
    assert VpOk(s.jobs, v, p);
    if p.pc.User? {
      CurrentIsTop(s.jobs, v, p.frames);
    }
  }

  predicate IsInlined(f: Frame)
  {
    f.Body? && f.inlined
  }

  lemma CurrentIsTop(jobs: map<JobId, Job>, v: nat, frames: seq<Frame>)
    requires frames != [] && FramesOk(jobs, v, frames) && !Last(frames).Joining?
    ensures CurrentOf(frames) == JobOf(Last(frames)) <==> !IsInlined(Last(frames))
  {
    CurrentIsNotInlined(frames);
    assert Last(frames) in frames && FrameOk(jobs, v, Last(frames));
    assert CurrentOf(frames).Some? ==> FrameOk(jobs, v, Body(CurrentOf(frames).value, false));
  }

  function JoinsIn(frames: seq<Frame>): nat
  {
    if frames == [] then 0 else JoinsIn(Pop(frames)) + if Last(frames).Joining? then 1 else 0
  }

  lemma {:induction false} SuspendedEntry(frames: seq<Frame>, i: nat)
    requires i < |frames| && frames[i].Joining?
    ensures |SuspendedJobs(frames)| == JoinsIn(frames) > JoinsIn(frames[..i])
    ensures SuspendedJobs(frames)[JoinsIn(frames[..i])] == CurrentOf(frames[..i])
    decreases |frames|
  {
    SuspendedCount(frames);
    if i == |frames| - 1 {
      assert frames[..i] == Pop(frames);
      SuspendedCount(Pop(frames));
    } else {
      SuspendedEntry(Pop(frames), i);
      assert Pop(frames)[..i] == frames[..i];
    }
  }

  lemma {:induction false} SuspendedCount(frames: seq<Frame>)
    ensures |SuspendedJobs(frames)| == JoinsIn(frames)
    decreases |frames|
  {
    if frames != [] {
      SuspendedCount(Pop(frames));
    }
  }

  /** Entry by entry: the context of a suspended join names the job whose code called it
      exactly if that job is not running inline. */
  lemma ContextEntry(n: nat, s: State, v: nat, i: nat)
    requires Reachable(n, s) && v < |s.vps| && i < |s.vps[v].frames| && s.vps[v].frames[i].Joining?
    requires s.vps[v].pc.AtCheck? ==> i < |s.vps[v].frames| - 1
    ensures 0 < i && JoinsIn(s.vps[v].frames[..i]) < |s.vps[v].context|
    ensures var p := s.vps[v];
            p.context[JoinsIn(p.frames[..i])] == JobOf(p.frames[i - 1]) <==> !IsInlined(p.frames[i - 1])
  {
    hide Reachable, Inv, ListOk, HandOk, JoinsIn, SuspendedJobs, CurrentOf;
    var p := s.vps[v];
    VpIsOk(n, s, v);
    assert FrameFits(v, p.frames, i);
    var stack := if p.pc.AtCheck? then Pop(p.frames) else p.frames;
    assert stack[..i] == p.frames[..i];
    SuspendedEntry(stack, i);
    FramesPrefix(s.jobs, v, p.frames, i);
    CurrentIsTop(s.jobs, v, p.frames[..i]);
  }

  lemma VpIsOk(n: nat, s: State, v: nat)
    requires Reachable(n, s) && v < |s.vps|
    ensures VpOk(s.jobs, v, s.vps[v])
  {
    ReachableInv(n, s);
  }

  lemma FramesPrefix(jobs: map<JobId, Job>, v: nat, frames: seq<Frame>, i: nat)
    requires FramesOk(jobs, v, frames) && i <= |frames|
    ensures FramesOk(jobs, v, frames[..i])
  {
    forall f | f in frames[..i]
      ensures FrameOk(jobs, v, f)
    {
      assert f in frames;
    }
  }

  /** Where nothing runs inline, jobs and joins alternate on the stack, and context_stack is
      the sequence of the jobs below the joins. */
  lemma ContextAlternates(n: nat, s: State, v: nat)
    requires Reachable(n, s) && v < |s.vps| && NothingInlined(s.vps[v].frames) && s.vps[v].pc.User?
    ensures Alternates(s.vps[v].frames, s.vps[v].context) && |s.vps[v].frames| == 2 * |s.vps[v].context| + 1
  {
    ReachableInv(n, s);
    assert VpOk(s.jobs, v, s.vps[v]);
    SuspendedAre(v, s.vps[v].frames);
  }

  /** The recorded parent of a job is the job that forked it, or nothing for the main program,
      exactly if the forking job was not itself running inline. */
  lemma ParentIsForkerIff(n: nat, s: State, j: JobId)
    requires Reachable(n, s) && j in s.jobs
    ensures s.jobs[j].forker.Some? ==> s.jobs[j].forker.value in s.jobs
    ensures s.jobs[j].parent == s.jobs[j].forker <==>
              !(s.jobs[j].forker.Some? && s.jobs[s.jobs[j].forker.value].inlined)
  {
    ReachableInv(n, s);
    assert LineageOk(s.jobs, s.clock, s.jobs[j]);
  }

  // ---------------------------------------------------------------- runs

  /** Job ids never run out. */
  lemma {:induction false} AboveAll(js: set<JobId>) returns (b: JobId)
    ensures forall j :: j in js ==> j < b
    decreases js
  {
    b := 0;
    if js != {} {
      var j :| j in js;
      var rest := AboveAll(js - {j});
      b := rest + j + 1;
      assert forall i :: i in js ==> i == j || i in js - {j};
    }
  }

  /** Runs can be extended. */
  lemma {:induction false} Then(n: nat, s: State, v: nat, a: Action)
    requires Reachable(n, s) && v < |s.vps| && Enabled(s, v, a)
    ensures Reachable(n, Apply(s, v, a))
  {
    var run :| IsRun(n, run) && Last(run) == s;
    var s' := Apply(s, v, a);
    var longer := run + [s'];
    forall i | 0 <= i < |longer| - 1
      ensures Step(longer[i], longer[i + 1])
    {
      if i < |run| - 1 {
        assert Step(run[i], run[i + 1]);
      } else {
        assert longer[i] == s && longer[i + 1] == s';
      }
    }
    assert IsRun(n, longer) && Last(longer) == s';
  }

  // ---------------------------------------------------------------- pending joins

  /** How a step may change the call stack: it pushes one frame, pops the top frame, ends
      the main program, or keeps the stack. */
  ghost predicate StackStep(fs: seq<Frame>, fs': seq<Frame>)
  {
    || fs' == fs
    || (|fs'| == |fs| + 1 && Pop(fs') == fs)
    || (fs == [MainCode] && fs' == [])
    || (fs != [] && fs' == Pop(fs))
  }

  /** A join is popped only when the target is Finished. */
  lemma OwnFrames(s: State, v: nat, a: Action)
    requires v < |s.vps| && Enabled(s, v, a) && PcFits(s.vps[v])
    ensures |Apply(s, v, a).vps| == |s.vps|
    ensures var s' := Apply(s, v, a);
            var fs, fs' := s.vps[v].frames, s'.vps[v].frames;
            && StackStep(fs, fs')
            && (fs != [] && Last(fs).Joining? && fs' == Pop(fs) ==>
                  s'.vps[v].pc.User? && s'.jobs == s.jobs && IsFinished(s.jobs, Last(fs).target))
  {
  }

  lemma JoinInStack(fs: seq<Frame>, fs': seq<Frame>, i: nat)
    requires StackStep(fs, fs') && i < |fs| && fs[i].Joining?
    ensures (i < |fs'| && fs'[..i + 1] == fs[..i + 1]) || (fs' == Pop(fs) == fs[..i] && i == |fs| - 1)
  {
    if |fs'| == |fs| + 1 && Pop(fs') == fs {
      assert fs'[..i + 1] == Pop(fs')[..i + 1];
    }
  }

  /** A pending join, and everything below it, stays on the stack until the joined job is
      Finished; then the join returns into the code that called it. */
  lemma {:induction false} JoinFrameStep(s: State, s': State, v: nat, i: nat)
    requires Inv(s) && Step(s, s') && v < |s.vps| && i < |s.vps[v].frames| && s.vps[v].frames[i].Joining?
    ensures |s'.vps| == |s.vps|
    ensures var fs, fs' := s.vps[v].frames, s'.vps[v].frames;
            || (i < |fs'| && fs'[..i + 1] == fs[..i + 1])
            || (fs' == fs[..i] && s'.vps[v].pc.User? && IsFinished(s.jobs, fs[i].target) && s'.jobs == s.jobs)
  {
    var w: nat, a: Action :| w < |s.vps| && Enabled(s, w, a) && s' == Apply(s, w, a);
    if w != v {
      OtherVp(s, w, a, v);
    } else {
      assert VpOk(s.jobs, v, s.vps[v]);
      OwnFrames(s, v, a);
      JoinInStack(s.vps[v].frames, s'.vps[v].frames, i);
    }
  }

  /** A join that returns finds current_job and context_stack as they were when it was
      called, whatever ran on top of it in between. */
  lemma JoinRestores(path: seq<State>, v: nat) returns (m: nat)
    requires path != [] && Inv(path[0]) && IsPath(path) && v < |path[0].vps|
    requires path[0].vps[v].pc.AtCheck? && path[0].vps[v].frames != []
    requires |Last(path).vps| == |path[0].vps|
    requires |Last(path).vps[v].frames| < |path[0].vps[v].frames|
    ensures m < |path| && |path[m].vps| == |path[0].vps|
    ensures path[m].vps[v].pc.User? && path[m].vps[v].frames == Pop(path[0].vps[v].frames)
    ensures path[m].vps[v].current == path[0].vps[v].current
    ensures path[m].vps[v].context == path[0].vps[v].context
    ensures Last(path[0].vps[v].frames).Joining? && IsFinished(path[m].jobs, Last(path[0].vps[v].frames).target)
  {
    var p := path[0].vps[v];
    assert VpOk(path[0].jobs, v, p);
    assert p.frames[..|p.frames|] == p.frames;
    assert !Under(Last(path), v, p.frames);
    m := WhenJoinReturns(path, v, p.frames);
    var q := path[m].vps[v];
    assert VpOk(path[m].jobs, v, q);
    if q.frames != [] {
      assert FrameFits(v, q.frames, |q.frames| - 1);
    }
    assert SuspendedJobs(q.frames) == q.context;
    assert CurrentOf(p.frames) == CurrentOf(Pop(p.frames));
  }

  lemma TailIsPath(path: seq<State>)
    requires path != [] && IsPath(path)
    ensures IsPath(path[1..])
  {
    var rest := path[1..];
    forall i | 0 <= i < |rest| - 1
      ensures Step(rest[i], rest[i + 1])
    {
      assert Step(path[i + 1], path[i + 2]);
    }
  }

  /** The stack of VP `v` still starts with `fs`. */
  ghost predicate Under(s: State, v: nat, fs: seq<Frame>)
  {
    v < |s.vps| && |fs| <= |s.vps[v].frames| && s.vps[v].frames[..|fs|] == fs
  }

  ghost predicate JoinReturned(s: State, v: nat, fs: seq<Frame>)
  {
    && v < |s.vps| && fs != [] && Last(fs).Joining?
    && s.vps[v].pc.User? && s.vps[v].frames == Pop(fs) && IsFinished(s.jobs, Last(fs).target)
  }

  lemma UnderStep(s: State, s': State, v: nat, fs: seq<Frame>)
    requires Inv(s) && Step(s, s') && fs != [] && Last(fs).Joining? && Under(s, v, fs)
    ensures |s'.vps| == |s.vps|
    ensures Under(s', v, fs) || JoinReturned(s', v, fs)
  {
    var fs0 := s.vps[v].frames;
    assert fs0[|fs| - 1] == Last(fs) && fs0[..|fs| - 1] == Pop(fs) && fs0[..|fs| - 1 + 1] == fs;
    JoinFrameStep(s, s', v, |fs| - 1);
  }

  lemma {:induction false} WhenJoinReturns(path: seq<State>, v: nat, fs: seq<Frame>) returns (m: nat)
    requires path != [] && Inv(path[0]) && IsPath(path)
    requires fs != [] && Last(fs).Joining? && Under(path[0], v, fs) && !Under(Last(path), v, fs)
    ensures m < |path| && |path[m].vps| == |path[0].vps| && Inv(path[m])
    ensures JoinReturned(path[m], v, fs)
    decreases |path|
  {
    assert Step(path[0], path[1]);
    NextInv(path[0], path[1]);
    UnderStep(path[0], path[1], v, fs);
    if JoinReturned(path[1], v, fs) {
      m := 1;
    } else {
      TailIsPath(path);
      var k := WhenJoinReturns(path[1..], v, fs);
      m := k + 1;
    }
  }
}
