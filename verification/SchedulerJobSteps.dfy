/** The steps of the scheduler that move a job keep the invariant; so does every step. */
module SchedulerJobSteps {
  import opened Options
  import opened HeapOrder
  import opened HeapOperations
  import opened Scheduler
  import opened SchedulerInvariant
  import opened SchedulerSteps

  // ---------------------------------------------------------------- taking a job from a list

  /** Taking entry `e` out of a list of distinct entries leaves no entry for its job. */
  lemma ListWithout(jobs: map<JobId, Job>, v: nat, p: Vp, e: Entry<JobId>, rest: seq<Entry<JobId>>, place: Place)
    requires ListOk(jobs, v, p) && multiset(p.list) == multiset(rest) + multiset{e}
    requires e in p.list && e.job in jobs
    ensures ListOk(jobs[e.job := jobs[e.job].(place := place)], v, p.(list := rest))
    ensures forall d :: d in p.list && d.job != e.job ==> d in rest
  {
    assert e in multiset(p.list);
    assert EntryOk(jobs, v, p.counter, e);
    var jobs' := jobs[e.job := jobs[e.job].(place := place)];
    forall d | d in rest
      ensures EntryOk(jobs', v, p.counter, d)
    {
      assert d in multiset(p.list);
      assert EntryOk(jobs, v, p.counter, d);
      assert multiset(p.list)[e] <= 1;
      assert d != e;
    }
    forall d
      ensures multiset(rest)[d] <= 1
    {
      assert multiset(p.list)[d] <= 1;
    }
    forall d | d in p.list && d.job != e.job
      ensures d in rest
    {
      assert d in multiset(p.list);
      assert d in multiset(rest);
    }
  }

  lemma PopKeepsInv(s: State, v: nat)
    requires Inv(s) && v < |s.vps| && s.vps[v].pc.AtPop? && s.vps[v].list != []
    ensures Inv(DoPop(s, v))
  {
    var p, s' := s.vps[v], DoPop(s, v);
    var e := Last(p.list);
    assert VpOk(s.jobs, v, p);
    assert EntryOk(s.jobs, v, p.counter, e);
    assert PlaceOk(s.vps, e.job, s.jobs[e.job]);
    PopVp(s.jobs, s'.jobs, v, p, e);
    LineagesKept(s.jobs, s'.jobs, s.clock, e.job);
    JobStep(s, s', v, p.(list := AfterExtractLast(p.list), pc := Popped(e.job)), e.job);
  }

  lemma PopVp(jobs: map<JobId, Job>, jobs': map<JobId, Job>, v: nat, p: Vp, e: Entry<JobId>)
    requires VpOk(jobs, v, p) && p.pc.AtPop? && p.list != [] && e == Last(p.list)
    requires e.job in jobs && jobs[e.job].state == Ready && jobs[e.job].place == Listed(v)
    requires jobs' == jobs[e.job := jobs[e.job].(place := Held(v))]
    ensures VpOk(jobs', v, p.(list := AfterExtractLast(p.list), pc := Popped(e.job)))
    ensures forall d :: d in p.list && d.job != e.job ==> d in AfterExtractLast(p.list)
  {
    ExtractLastKeepsElements(p.list);
    ListWithout(jobs, v, p, e, AfterExtractLast(p.list), Held(v));
    FramesFrame(jobs, jobs', v, p.frames);
    assert ListOk(jobs', v, p.(list := AfterExtractLast(p.list)));
  }

  lemma StealKeepsInv(s: State, v: nat, k: nat)
    requires Inv(s) && v < |s.vps| && k < |s.vps| && s.vps[v].pc.AtSteal? && k != v && s.vps[k].list != []
    ensures Inv(DoSteal(s, v, k))
  {
    var p, q, s' := s.vps[v], s.vps[k], DoSteal(s, v, k);
    var e := q.list[0];
    var p' := p.(pc := Stolen(e.job));
    var q' := q.(list := AfterExtractMin(q.list));
    assert VpOk(s.jobs, v, p) && VpOk(s.jobs, k, q);
    ExtractMinKeepsElements(q.list);
    assert EntryOk(s.jobs, k, q.counter, e);
    ListWithout(s.jobs, k, q, e, AfterExtractMin(q.list), Held(v));
    assert PlaceOk(s.vps, e.job, s.jobs[e.job]);
    StealVps(s.jobs, s'.jobs, s.vps, v, k, e.job, p', q');
    LineagesKept(s.jobs, s'.jobs, s.clock, e.job);
    StealPlaces(s.jobs, s'.jobs, s.vps, v, k, e.job, p', q');
    CountUpdate(s.vps, k, q');
    CountUpdate(s.vps[k := q'], v, p');
    ExitKept(s.vps, k, q');
    ExitKept(s.vps[k := q'], v, p');
  }

  lemma StealPlaces(jobs: map<JobId, Job>, jobs': map<JobId, Job>, vps: seq<Vp>, v: nat, k: nat, j: JobId,
                    p': Vp, q': Vp)
    requires v < |vps| && k < |vps| && k != v && PlacesOk(vps, jobs)
    requires j in jobs && jobs[j].place == Listed(k)
    requires jobs' == jobs[j := jobs[j].(place := Held(v))]
    requires vps[v].pc.AtSteal? && p' == vps[v].(pc := Stolen(j))
    requires q' == vps[k].(list := q'.list)
    requires forall d :: d in vps[k].list && d.job != j ==> d in q'.list
    ensures PlacesOk(vps[k := q'][v := p'], jobs')
  {
    var vps' := vps[k := q'][v := p'];
    forall i | i in jobs'
      ensures PlaceOk(vps', i, jobs'[i])
    {
      assert PlaceOk(vps, i, jobs[i]);
      if i != j {
        PlaceAfter(vps, k, q', Some(j), i, jobs[i]);
        PlaceAfter(vps[k := q'], v, p', Some(j), i, jobs[i]);
      }
    }
  }

  lemma StealVps(jobs: map<JobId, Job>, jobs': map<JobId, Job>, vps: seq<Vp>, v: nat, k: nat, j: JobId, p': Vp, q': Vp)
    requires v < |vps| && k < |vps| && k != v && VpsOk(jobs, vps)
    requires j in jobs && jobs[j].place == Listed(k) && jobs[j].state == Ready
    requires jobs' == jobs[j := jobs[j].(place := Held(v))]
    requires vps[v].pc.AtSteal? && p' == vps[v].(pc := Stolen(j))
    requires q' == vps[k].(list := q'.list) && ListOk(jobs', k, q')
    requires SawEmpty(vps[k].pc) ==> q'.list == []
    ensures VpsOk(jobs', vps[k := q'][v := p'])
  {
    var vps' := vps[k := q'][v := p'];
    forall w | 0 <= w < |vps'|
      ensures VpOk(jobs', w, vps'[w])
    {
      assert VpOk(jobs, w, vps[w]);
      if w == k {
        FramesFrame(jobs, jobs', k, q'.frames);
        assert HandOk(jobs', k, q'.pc);
      } else {
        VpFrame(jobs, jobs', w, vps[w]);
        if w == v {
          assert ListOk(jobs', v, p');
        }
      }
    }
  }

  /** The compare-and-swap Ready -> Running of a job taken from a list succeeds. */
  lemma ClaimKeepsInv(s: State, v: nat, j: JobId)
    requires Inv(s) && v < |s.vps| && (s.vps[v].pc == Popped(j) || s.vps[v].pc == Stolen(j))
    ensures Inv(DoClaim(s, v, j))
    ensures j in s.jobs && DoClaim(s, v, j).jobs == s.jobs[j := s.jobs[j].(state := Running)]
  {
    var p, s' := s.vps[v], DoClaim(s, v, j);
    assert VpOk(s.jobs, v, p);
    assert HandOk(s.jobs, v, p.pc);
    assert PlaceOk(s.vps, j, s.jobs[j]);
    var p' := p.(current := Some(j), pc := if p.pc.Stolen? && p.frames == [] then AtUncount(Some(j)) else AtRun(j));
    ClaimVp(s.jobs, s'.jobs, v, p, p', j);
    LineagesKept(s.jobs, s'.jobs, s.clock, j);
    JobStep(s, s', v, p', j);
  }

  lemma ClaimVp(jobs: map<JobId, Job>, jobs': map<JobId, Job>, v: nat, p: Vp, p': Vp, j: JobId)
    requires VpOk(jobs, v, p) && (p.pc == Popped(j) || p.pc == Stolen(j))
    requires j in jobs && jobs[j].place == Held(v) && jobs' == jobs[j := jobs[j].(state := Running)]
    requires p' == p.(current := Some(j), pc := if p.pc.Stolen? && p.frames == [] then AtUncount(Some(j)) else AtRun(j))
    ensures VpOk(jobs', v, p')
  {
    FramesFrame(jobs, jobs', v, p.frames);
    ListElsewhere(jobs, jobs', v, p, p', j);
  }

  lemma ListElsewhere(jobs: map<JobId, Job>, jobs': map<JobId, Job>, v: nat, p: Vp, p': Vp, j: JobId)
    requires ListOk(jobs, v, p) && p'.list == p.list && p'.counter >= p.counter
    requires OnlyJob(jobs, jobs', j) && (j in jobs ==> jobs[j].place != Listed(v))
    ensures ListOk(jobs', v, p')
  {
    forall e | e in p.list
      ensures EntryOk(jobs', v, p'.counter, e)
    {
      assert EntryOk(jobs, v, p.counter, e);
    }
  }

  // ---------------------------------------------------------------- running a job

  /** A job that starts now starts after its forker, and nothing was forked by it before. */
  lemma LineagesStart(jobs: map<JobId, Job>, jobs': map<JobId, Job>, clock: nat, j: JobId)
    requires LineagesOk(jobs, clock) && clock >= 1 && OnlyJob(jobs, jobs', j) && j in jobs'
    requires j in jobs ==> jobs[j].starts == 0
    requires jobs'[j].starts == 1 && jobs'[j].stamp == clock
    requires j in jobs ==> jobs'[j].forker == jobs[j].forker && jobs'[j].parent == jobs[j].parent
    requires j !in jobs ==> NewLineage(jobs, jobs'[j].forker, jobs'[j].parent)
    ensures LineagesOk(jobs', clock + 1)
  {
    forall i | i in jobs'
      ensures LineageOk(jobs', clock + 1, jobs'[i])
    {
      if i in jobs {
        assert LineageOk(jobs, clock, jobs[i]);
      }
      if jobs'[i].forker.Some? && jobs'[i].forker.value in jobs {
        assert LineageOk(jobs, clock, jobs[jobs'[i].forker.value]);
      }
    }
  }

  /** A fresh job names a started job or the main program as its forker and parent. */
  ghost predicate NewLineage(jobs: map<JobId, Job>, forker: Option<JobId>, parent: Option<JobId>)
  {
    match forker
    case None => parent == None
    case Some(p) => p in jobs && jobs[p].starts == 1 && (!jobs[p].inlined <==> parent == Some(p))
  }

  lemma LineagesFork(jobs: map<JobId, Job>, jobs': map<JobId, Job>, clock: nat, j: JobId)
    requires LineagesOk(jobs, clock) && OnlyJob(jobs, jobs', j) && j !in jobs && j in jobs'
    requires jobs'[j].starts == 0 && NewLineage(jobs, jobs'[j].forker, jobs'[j].parent)
    ensures LineagesOk(jobs', clock)
  {
    forall i | i in jobs'
      ensures LineageOk(jobs', clock, jobs'[i])
    {
      if i in jobs {
        assert LineageOk(jobs, clock, jobs[i]);
      }
    }
  }

  /** Every job on a stack started before now. */
  lemma StackedEarlier(s: State, v: nat)
    requires Inv(s) && v < |s.vps|
    ensures forall g :: g in s.vps[v].frames && g.Body? ==>
            g.job in s.jobs && s.jobs[g.job].starts == 1 && s.jobs[g.job].stamp < s.clock
  {
    forall g | g in s.vps[v].frames && g.Body?
      ensures g.job in s.jobs && s.jobs[g.job].starts == 1 && s.jobs[g.job].stamp < s.clock
    {
      assert VpOk(s.jobs, v, s.vps[v]);
      assert FrameOk(s.jobs, v, g);
      assert PlaceOk(s.vps, g.job, s.jobs[g.job]);
      assert LineageOk(s.jobs, s.clock, s.jobs[g.job]);
    }
  }

  lemma RunKeepsInv(s: State, v: nat, j: JobId)
    requires Inv(s) && v < |s.vps| && s.vps[v].pc == AtRun(j)
    ensures Inv(DoRun(s, v, j))
  {
    var p, s' := s.vps[v], DoRun(s, v, j);
    var p' := p.(frames := p.frames + [Body(j, false)], pc := User);
    assert VpOk(s.jobs, v, p);
    assert HandOk(s.jobs, v, p.pc);
    assert PlaceOk(s.vps, j, s.jobs[j]);
    StampsBelow(s, s', v, j);
    RunVp(s.jobs, s'.jobs, v, p, j);
    LineagesStart(s.jobs, s'.jobs, s.clock, j);
    JobStep(s, s', v, p', j);
  }

  lemma RunVp(jobs: map<JobId, Job>, jobs': map<JobId, Job>, v: nat, p: Vp, j: JobId)
    requires VpOk(jobs, v, p) && p.pc == AtRun(j) && j in jobs
    requires OnlyJob(jobs, jobs', j) && FrameOk(jobs', v, Body(j, false))
    requires forall g :: g in p.frames && g.Body? ==> g.job in jobs' && jobs'[g.job].stamp < jobs'[j].stamp
    ensures VpOk(jobs', v, p.(frames := p.frames + [Body(j, false)], pc := User))
  {
    var p' := p.(frames := p.frames + [Body(j, false)], pc := User);
    FramesFrame(jobs, jobs', v, p.frames);
    PushFrame(jobs', v, p.frames, Body(j, false));
    PushShape(v, p.frames, Body(j, false));
    assert Pop(p'.frames) == p.frames;
    ListElsewhere(jobs, jobs', v, p, p', j);
  }

  lemma StampsBelow(s: State, s': State, v: nat, j: JobId)
    requires Inv(s) && v < |s.vps| && OnlyJob(s.jobs, s'.jobs, j) && j in s'.jobs
    requires j in s.jobs ==> s.jobs[j].place != Stacked(v)
    requires s'.jobs[j].stamp == s.clock
    ensures forall g :: g in s.vps[v].frames && g.Body? ==> g.job in s'.jobs && s'.jobs[g.job].stamp < s'.jobs[j].stamp
  {
    StackedEarlier(s, v);
    forall g | g in s.vps[v].frames && g.Body?
      ensures g.job in s'.jobs && s'.jobs[g.job].stamp < s'.jobs[j].stamp
    {
      assert VpOk(s.jobs, v, s.vps[v]);
      assert FrameOk(s.jobs, v, g);
    }
  }

  lemma FinishKeepsInv(s: State, v: nat)
    requires Inv(s) && v < |s.vps| && s.vps[v].pc.Returned?
    ensures Inv(DoFinish(s, v))
  {
    var p, s' := s.vps[v], DoFinish(s, v);
    var p' := s'.vps[v];
    assert VpOk(s.jobs, v, p);
    var f := Last(p.frames);
    var j := f.job;
    assert f in p.frames && FrameOk(s.jobs, v, f);
    assert PlaceOk(s.vps, j, s.jobs[j]);
    assert p' == Ended(p);
    FinishVp(s.jobs, s'.jobs, v, p);
    forall g | g in p.frames && g.Body? && g.job != j
      ensures g in p'.frames
    {
      KeptByPop(p.frames, g);
    }
    LineagesKept(s.jobs, s'.jobs, s.clock, j);
    JobStep(s, s', v, p', j);
  }

  /** The VP after the job on top of its stack has ended. */
  function Ended(p: Vp): Vp
    requires p.frames != [] && Last(p.frames).Body?
  {
    var q := p.(frames := Pop(p.frames));
    if Last(p.frames).inlined then q.(pc := User)
    else if q.frames == [] then q.(pc := AtPop)
    else BackToCheck(q)
  }

  lemma FinishVp(jobs: map<JobId, Job>, jobs': map<JobId, Job>, v: nat, p: Vp)
    requires VpOk(jobs, v, p) && p.pc.Returned?
    requires OnlyJob(jobs, jobs', Last(p.frames).job)
    ensures VpOk(jobs', v, Ended(p))
  {
    var f := Last(p.frames);
    assert f in p.frames && FrameOk(jobs, v, f);
    FinishShape(v, p);
    FinishContext(v, p);
    PopFramesOfJob(jobs, jobs', v, p.frames);
    ListElsewhere(jobs, jobs', v, p, Ended(p), f.job);
  }

  lemma FinishShape(v: nat, p: Vp)
    requires ShapeOk(v, p) && p.pc.Returned?
    ensures ShapeOk(v, Ended(p))
  {
    assert FrameFits(v, p.frames, |p.frames| - 1);
    PopShape(v, p.frames);
  }

  lemma FinishContext(v: nat, p: Vp)
    requires ShapeOk(v, p) && ContextOk(p) && p.pc.Returned?
    ensures ContextOk(Ended(p))
  {
    assert FrameFits(v, p.frames, |p.frames| - 1);
    assert SuspendedJobs(p.frames) == SuspendedJobs(Pop(p.frames));
    if Last(p.frames).inlined {
      assert CurrentOf(p.frames) == CurrentOf(Pop(p.frames));
    } else if Pop(p.frames) != [] {
      BackToCheckOk(p.(frames := Pop(p.frames)));
    }
  }

  lemma PopFramesOfJob(jobs: map<JobId, Job>, jobs': map<JobId, Job>, v: nat, frames: seq<Frame>)
    requires frames != [] && Last(frames).Body? && FramesOk(jobs, v, frames)
    requires OnlyJob(jobs, jobs', Last(frames).job)
    ensures FramesOk(jobs', v, Pop(frames))
  {
    var rest := Pop(frames);
    forall i | 0 <= i < |rest| && rest[i].Body?
      ensures rest[i].job != Last(frames).job && rest[i].job in jobs && Last(frames).job in jobs
    {
      assert rest[i] in frames && Last(frames) in frames;
      assert FrameOk(jobs, v, rest[i]) && FrameOk(jobs, v, Last(frames));
      assert frames[i] == rest[i];
    }
    forall f | f in rest
      ensures FrameOk(jobs', v, f)
    {
      assert FrameOk(jobs, v, f);
    }
    assert StampsRise(jobs', rest);
  }

  // ---------------------------------------------------------------- forking a job

  lemma ForkKeepsInv(s: State, v: nat, child: JobId)
    requires Inv(s) && v < |s.vps| && Enabled(s, v, Fork(child))
    ensures Inv(Apply(s, v, Fork(child)))
  {
    ForkLineage(s, v);
    if |s.vps[v].context| > INLINE_DEPTH {
      ForkInlineKeepsInv(s, v, child);
    } else {
      ForkListKeepsInv(s, v, child);
    }
  }

  lemma ForkInlineKeepsInv(s: State, v: nat, child: JobId)
    requires Inv(s) && v < |s.vps| && InUserCode(s.vps[v]) && child !in s.jobs
    requires |s.vps[v].context| > INLINE_DEPTH
    requires NewLineage(s.jobs, JobOf(Last(s.vps[v].frames)), s.vps[v].current)
    ensures Inv(DoFork(s, v, child))
  {
    var p, s' := s.vps[v], DoFork(s, v, child);
    StampsBelow(s, s', v, child);
    InlineVp(s.jobs, s'.jobs, v, p, child);
    LineagesStart(s.jobs, s'.jobs, s.clock, child);
    JobStep(s, s', v, p.(counter := p.counter + 1, frames := p.frames + [Body(child, true)]), child);
  }

  lemma ForkListKeepsInv(s: State, v: nat, child: JobId)
    requires Inv(s) && v < |s.vps| && InUserCode(s.vps[v]) && child !in s.jobs
    requires |s.vps[v].context| <= INLINE_DEPTH
    requires NewLineage(s.jobs, JobOf(Last(s.vps[v].frames)), s.vps[v].current)
    ensures Inv(DoFork(s, v, child))
  {
    var p, s' := s.vps[v], DoFork(s, v, child);
    ForkVp(s.jobs, s'.jobs, v, p, child);
    LineagesFork(s.jobs, s'.jobs, s.clock, child);
    JobStep(s, s', v, p.(counter := p.counter + 1, list := p.list + [Entry(p.counter, child)]), child);
  }

  lemma InlineVp(jobs: map<JobId, Job>, jobs': map<JobId, Job>, v: nat, p: Vp, child: JobId)
    requires VpOk(jobs, v, p) && InUserCode(p) && child !in jobs
    requires OnlyJob(jobs, jobs', child) && FrameOk(jobs', v, Body(child, true))
    requires forall g :: g in p.frames && g.Body? ==> g.job in jobs' && jobs'[g.job].stamp < jobs'[child].stamp
    ensures VpOk(jobs', v, p.(counter := p.counter + 1, frames := p.frames + [Body(child, true)]))
  {
    var p' := p.(counter := p.counter + 1, frames := p.frames + [Body(child, true)]);
    FramesFrame(jobs, jobs', v, p.frames);
    PushFrame(jobs', v, p.frames, Body(child, true));
    PushShape(v, p.frames, Body(child, true));
    assert Pop(p'.frames) == p.frames;
    ListElsewhere(jobs, jobs', v, p, p', child);
  }

  lemma ForkVp(jobs: map<JobId, Job>, jobs': map<JobId, Job>, v: nat, p: Vp, child: JobId)
    requires VpOk(jobs, v, p) && InUserCode(p) && child !in jobs
    requires OnlyJob(jobs, jobs', child) && child in jobs' && jobs'[child].place == Listed(v)
             && jobs'[child].id == p.counter
    ensures AfterInsert(p.list, Entry(p.counter, child)) == p.list + [Entry(p.counter, child)]
    ensures VpOk(jobs', v, p.(counter := p.counter + 1, list := p.list + [Entry(p.counter, child)]))
  {
    FramesFrame(jobs, jobs', v, p.frames);
    ListElsewhere(jobs, jobs', v, p, p.(counter := p.counter + 1), child);
    ForkList(jobs, jobs', v, p, child);
  }

  lemma ForkLineage(s: State, v: nat)
    requires Inv(s) && v < |s.vps| && InUserCode(s.vps[v])
    ensures NewLineage(s.jobs, JobOf(Last(s.vps[v].frames)), s.vps[v].current)
  {
    var p := s.vps[v];
    assert VpOk(s.jobs, v, p);
    StackedEarlier(s, v);
    assert Last(p.frames) in p.frames;
    assert FrameOk(s.jobs, v, Last(p.frames));
    CurrentIsNotInlined(p.frames);
    assert p.current.Some? ==> FrameOk(s.jobs, v, Body(p.current.value, false));
  }

  /** The current job has a frame on the stack, and that frame is no inlined call. */
  lemma {:induction false} CurrentIsNotInlined(frames: seq<Frame>)
    ensures CurrentOf(frames).Some? ==> Body(CurrentOf(frames).value, false) in frames
    decreases |frames|
  {
    if frames != [] {
      CurrentIsNotInlined(Pop(frames));
    }
  }

  /** The id of the new job exceeds all ids in the list, so `insert` appends. */
  lemma ForkList(jobs: map<JobId, Job>, jobs': map<JobId, Job>, v: nat, p: Vp, child: JobId)
    requires ListOk(jobs, v, p) && ListOk(jobs', v, p.(counter := p.counter + 1))
    requires child !in jobs && child in jobs' && jobs'[child].place == Listed(v) && jobs'[child].id == p.counter
    ensures AfterInsert(p.list, Entry(p.counter, child)) == p.list + [Entry(p.counter, child)]
    ensures ListOk(jobs', v, p.(counter := p.counter + 1, list := AfterInsert(p.list, Entry(p.counter, child))))
  {
    var e := Entry(p.counter, child);
    forall d | d in p.list
      ensures d.id < e.id
    {
      assert EntryOk(jobs, v, p.counter, d);
    }
    InsertOfLargestAppends(p.list, e);
    var list := p.list + [e];
    assert EntryOk(jobs', v, p.counter + 1, e);
    forall d
      ensures multiset(list)[d] <= 1
    {
      assert multiset(p.list)[d] <= 1;
      assert d == e ==> d !in p.list;
    }
    forall d | d in list
      ensures EntryOk(jobs', v, p.counter + 1, d)
    {
      if d != e {
        assert d in p.list;
      }
    }
  }

  // ---------------------------------------------------------------- all steps

  lemma AdvanceKeepsInv(s: State, v: nat)
    requires Inv(s) && v < |s.vps| && Enabled(s, v, Advance)
    ensures Inv(DoAdvance(s, v))
  {
    var p := s.vps[v];
    assert VpOk(s.jobs, v, p);
    match p.pc
    case Returned => FinishKeepsInv(s, v);
    case AtCheck =>
      if IsFinished(s.jobs, Last(p.frames).target) {
        JoinDoneKeepsInv(s, v);
      } else {
        SuspendKeepsInv(s, v);
      }
    case AtPop =>
      if p.list == [] {
        EmptyPopKeepsInv(s, v);
      } else {
        PopKeepsInv(s, v);
      }
    case Popped(j) => ClaimKeepsInv(s, v, j);
    case AtCount => CountKeepsInv(s, v);
    case AtSteal(k) =>
      if k >= |s.vps| {
        GiveUpKeepsInv(s, v);
      } else if k == v || s.vps[k].list == [] {
        EmptyStealKeepsInv(s, v, k);
      } else {
        StealKeepsInv(s, v, k);
      }
    case Stolen(j) => ClaimKeepsInv(s, v, j);
    case AtUncount(found) => UncountKeepsInv(s, v, found);
    case AtRun(j) => RunKeepsInv(s, v, j);
  }

  lemma StepKeepsInv(s: State, v: nat, a: Action)
    requires Inv(s) && v < |s.vps| && Enabled(s, v, a)
    ensures Inv(Apply(s, v, a))
  {
    match a
    case Fork(child) => ForkKeepsInv(s, v, child);
    case CallJoin(t) => CallJoinKeepsInv(s, v, t);
    case Return => ReturnKeepsInv(s, v);
    case Terminate => TerminateKeepsInv(s, v);
    case Advance => AdvanceKeepsInv(s, v);
  }

  lemma {:induction false} NextInv(s: State, s': State)
    requires Inv(s) && Step(s, s')
    ensures Inv(s') && |s'.vps| == |s.vps|
  {
    var v: nat, a: Action :| v < |s.vps| && Enabled(s, v, a) && s' == Apply(s, v, a);
    StepKeepsInv(s, v, a);
    StepKeepsVps(s, v, a);
  }

  lemma StepKeepsVps(s: State, v: nat, a: Action)
    requires v < |s.vps| && Enabled(s, v, a)
    ensures |Apply(s, v, a).vps| == |s.vps|
  {
  }

  /** A step of one VP leaves the others alone, except that a thief may take the first
      element of their heaps. */
  lemma OtherVp(s: State, v: nat, a: Action, w: nat)
    requires v < |s.vps| && w < |s.vps| && v != w && Enabled(s, v, a)
    ensures |Apply(s, v, a).vps| == |s.vps|
    ensures var q := Apply(s, v, a).vps[w];
            || q == s.vps[w]
            || (s.vps[v].pc == AtSteal(w) && s.vps[w].list != []
              && q == s.vps[w].(list := AfterExtractMin(s.vps[w].list)))
  {
  }

  lemma {:induction false} InitialInv(n: nat)
    requires n >= 1
    ensures Inv(Initial(n))
  {
    var vps := Initial(n).vps;
    forall v | 0 <= v < n
      ensures VpOk(map[], v, vps[v]) && !Counted(vps[v])
    {
      assert v == 0 ==> Pop(vps[0].frames) == [];
    }
    NoneCounted(vps);
  }

  lemma {:induction false} NoneCounted(vps: seq<Vp>)
    requires forall v :: 0 <= v < |vps| ==> !Counted(vps[v])
    ensures CountIdle(vps) == 0
    decreases |vps|
  {
    if vps != [] {
      NoneCounted(Pop(vps));
    }
  }

  /** The invariant holds in every reachable state. */
  lemma {:induction false} RunInv(n: nat, run: seq<State>)
    requires IsRun(n, run)
    ensures Inv(Last(run)) && |Last(run).vps| == n
    decreases |run|
  {
    if |run| == 1 {
      InitialInv(n);
    } else {
      var before := Pop(run);
      assert IsRun(n, before);
      RunInv(n, before);
      assert Step(run[|run| - 2], run[|run| - 1]);
      NextInv(Last(before), Last(run));
    }
  }

  lemma ReachableInv(n: nat, s: State)
    requires Reachable(n, s)
    ensures Inv(s) && |s.vps| == n
  {
    var run :| IsRun(n, run) && Last(run) == s;
    RunInv(n, run);
  }
}
