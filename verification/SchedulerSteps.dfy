/** Every step of the scheduler keeps the invariant. */
module SchedulerSteps {
  import opened Options
  import opened Scheduler
  import opened SchedulerInvariant

  // ---------------------------------------------------------------- what a step leaves alone

  ghost predicate Local(job: Job, v: nat)
  {
    job.place == Listed(v) || job.place == Held(v) || job.place == Stacked(v)
  }

  /** A VP does not notice changes to jobs that are elsewhere. */
  lemma VpFrame(jobs: map<JobId, Job>, jobs': map<JobId, Job>, v: nat, p: Vp)
    requires VpOk(jobs, v, p)
    requires forall j :: j in jobs ==> j in jobs' && (Local(jobs[j], v) ==> jobs'[j] == jobs[j])
    ensures VpOk(jobs', v, p)
  {
    forall e | e in p.list
      ensures EntryOk(jobs', v, p.counter, e)
    {
      assert EntryOk(jobs, v, p.counter, e);
    }
    FramesFrame(jobs, jobs', v, p.frames);
  }

  lemma FramesFrame(jobs: map<JobId, Job>, jobs': map<JobId, Job>, v: nat, frames: seq<Frame>)
    requires FramesOk(jobs, v, frames)
    requires forall j :: j in jobs ==> j in jobs' && (jobs[j].place == Stacked(v) ==> jobs'[j] == jobs[j])
    ensures FramesOk(jobs', v, frames)
  {
    forall f | f in frames
      ensures FrameOk(jobs', v, f)
    {
      assert FrameOk(jobs, v, f);
    }
    forall i, k | 0 <= i < k < |frames| && frames[i].Body? && frames[k].Body?
      ensures frames[i].job in jobs' && frames[k].job in jobs'
      ensures jobs'[frames[i].job].stamp < jobs'[frames[k].job].stamp
    {
      assert FrameOk(jobs, v, frames[i]) && FrameOk(jobs, v, frames[k]);
    }
  }

  /** Of the jobs only `j` changed or appeared. */
  ghost predicate OnlyJob(jobs: map<JobId, Job>, jobs': map<JobId, Job>, j: JobId)
  {
    && (forall i :: i in jobs ==> i in jobs' && (i != j ==> jobs'[i] == jobs[i]))
    && (forall i :: i in jobs' ==> i in jobs || i == j)
  }

  lemma VpsAfter(jobs: map<JobId, Job>, jobs': map<JobId, Job>, vps: seq<Vp>, v: nat, p: Vp, j: JobId)
    requires v < |vps| && VpsOk(jobs, vps) && VpOk(jobs', v, p)
    requires OnlyJob(jobs, jobs', j)
    requires j in jobs ==> Local(jobs[j], v) || jobs'[j] == jobs[j]
    ensures VpsOk(jobs', vps[v := p])
  {
    forall w | 0 <= w < |vps| && w != v
      ensures VpOk(jobs', w, vps[w])
    {
      VpFrame(jobs, jobs', w, vps[w]);
    }
  }

  /** Everything `p` holds, except job `j`, is also held by `p'`. */
  ghost predicate HoldsOn(p: Vp, p': Vp, j: Option<JobId>)
  {
    && (forall e :: e in p.list && Some(e.job) != j ==> e in p'.list)
    && (forall f :: f in p.frames && f.Body? && Some(f.job) != j ==> f in p'.frames)
    && (InHand(p.pc).Some? && InHand(p.pc) != j ==> InHand(p'.pc) == InHand(p.pc))
  }

  lemma PlaceAfter(vps: seq<Vp>, v: nat, p: Vp, j: Option<JobId>, i: JobId, job: Job)
    requires v < |vps| && PlaceOk(vps, i, job) && HoldsOn(vps[v], p, j) && Some(i) != j
    ensures PlaceOk(vps[v := p], i, job)
  {
  }

  lemma PlacesAfter(vps: seq<Vp>, v: nat, p: Vp, jobs: map<JobId, Job>, jobs': map<JobId, Job>, j: JobId)
    requires v < |vps| && PlacesOk(vps, jobs) && HoldsOn(vps[v], p, Some(j))
    requires OnlyJob(jobs, jobs', j)
    requires j in jobs' ==> PlaceOk(vps[v := p], j, jobs'[j])
    ensures PlacesOk(vps[v := p], jobs')
  {
    forall i | i in jobs'
      ensures PlaceOk(vps[v := p], i, jobs'[i])
    {
      if i != j {
        PlaceAfter(vps, v, p, Some(j), i, jobs[i]);
      }
    }
  }

  /** Of the jobs, only fields that the lineage does not mention changed. */
  lemma LineagesKept(jobs: map<JobId, Job>, jobs': map<JobId, Job>, clock: nat, j: JobId)
    requires LineagesOk(jobs, clock) && OnlyJob(jobs, jobs', j) && j in jobs
    requires jobs'[j].(state := jobs[j].state, place := jobs[j].place) == jobs[j]
    ensures LineagesOk(jobs', clock)
  {
    forall i | i in jobs'
      ensures LineageOk(jobs', clock, jobs'[i])
    {
      assert LineageOk(jobs, clock, jobs[i]);
    }
  }

  lemma ExitKept(vps: seq<Vp>, v: nat, p: Vp)
    requires v < |vps| && ExitOk(vps)
    requires MainCode in p.frames ==> MainCode in vps[v].frames
    requires p.pc.Exited? ==> vps[v].pc.Exited?
    ensures ExitOk(vps[v := p])
  {
    var vps' := vps[v := p];
    if MainCode in vps'[0].frames {
      assert MainCode in vps[0].frames;
      forall w | 0 <= w < |vps'|
        ensures !vps'[w].pc.Exited?
      {
        assert !vps[w].pc.Exited?;
      }
    }
  }

  /** The part of a step that concerns the idle counter and the exits. */
  ghost predicate Accounts(s: State, s': State, v: nat, p: Vp)
    requires v < |s.vps|
  {
    && s'.vps == s.vps[v := p]
    && s'.idle - s.idle == (if Counted(p) then 1 else 0) - (if Counted(s.vps[v]) then 1 else 0)
    && (MainCode in p.frames ==> MainCode in s.vps[v].frames)
    && (p.pc.Exited? ==> s.vps[v].pc.Exited?)
  }

  /** A step of VP `v` that changes no job. */
  lemma JoblessStep(s: State, s': State, v: nat, p: Vp)
    requires Inv(s) && v < |s.vps| && Accounts(s, s', v, p)
    requires s'.jobs == s.jobs && s'.clock == s.clock
    requires VpOk(s.jobs, v, p)
    requires HoldsOn(s.vps[v], p, None)
    ensures Inv(s')
  {
    forall w | 0 <= w < |s'.vps|
      ensures VpOk(s'.jobs, w, s'.vps[w])
    {
    }
    forall i | i in s'.jobs
      ensures PlaceOk(s'.vps, i, s'.jobs[i])
    {
      PlaceAfter(s.vps, v, p, None, i, s.jobs[i]);
    }
    CountUpdate(s.vps, v, p);
    ExitKept(s.vps, v, p);
  }

  /** A step of VP `v` that moves, changes or creates job `j`, which is at `v` or new. */
  lemma JobStep(s: State, s': State, v: nat, p: Vp, j: JobId)
    requires Inv(s) && v < |s.vps| && Accounts(s, s', v, p)
    requires OnlyJob(s.jobs, s'.jobs, j) && (j in s.jobs ==> Local(s.jobs[j], v))
    requires j in s'.jobs && s'.clock >= s.clock && LineagesOk(s'.jobs, s'.clock)
    requires VpOk(s'.jobs, v, p)
    requires HoldsOn(s.vps[v], p, Some(j)) && PlaceOk(s'.vps, j, s'.jobs[j])
    ensures Inv(s')
  {
    VpsAfter(s.jobs, s'.jobs, s.vps, v, p, j);
    PlacesAfter(s.vps, v, p, s.jobs, s'.jobs, j);
    CountUpdate(s.vps, v, p);
    ExitKept(s.vps, v, p);
  }

  // ---------------------------------------------------------------- call stacks

  lemma PushFrame(jobs: map<JobId, Job>, v: nat, frames: seq<Frame>, f: Frame)
    requires FramesOk(jobs, v, frames) && FrameOk(jobs, v, f)
    requires f.Body? ==> forall g :: g in frames && g.Body? ==> g.job in jobs && jobs[g.job].stamp < jobs[f.job].stamp
    ensures FramesOk(jobs, v, frames + [f])
  {
    var fs := frames + [f];
    forall i, k | 0 <= i < k < |fs| && fs[i].Body? && fs[k].Body?
      ensures fs[i].job in jobs && fs[k].job in jobs
      ensures jobs[fs[i].job].stamp < jobs[fs[k].job].stamp
    {
      assert fs[i] in frames;
      assert FrameOk(jobs, v, fs[i]) && FrameOk(jobs, v, fs[k]);
    }
  }

  lemma PushShape(v: nat, frames: seq<Frame>, f: Frame)
    requires forall i :: 0 <= i < |frames| ==> FrameFits(v, frames, i)
    requires FrameFits(v, frames + [f], |frames|)
    ensures forall i :: 0 <= i < |frames + [f]| ==> FrameFits(v, frames + [f], i)
  {
    forall i | 0 <= i < |frames + [f]|
      ensures FrameFits(v, frames + [f], i)
    {
      if i < |frames| {
        assert FrameFits(v, frames, i);
      }
    }
  }

  lemma PopShape(v: nat, frames: seq<Frame>)
    requires frames != [] && forall i :: 0 <= i < |frames| ==> FrameFits(v, frames, i)
    ensures forall i :: 0 <= i < |frames| - 1 ==> FrameFits(v, Pop(frames), i)
  {
    forall i | 0 <= i < |frames| - 1
      ensures FrameFits(v, Pop(frames), i)
    {
      assert FrameFits(v, frames, i);
    }
  }

  lemma PopFrames(jobs: map<JobId, Job>, v: nat, frames: seq<Frame>)
    requires frames != [] && FramesOk(jobs, v, frames)
    ensures FramesOk(jobs, v, Pop(frames))
  {
    forall f | f in Pop(frames)
      ensures FrameOk(jobs, v, f)
    {
      assert f in frames;
    }
  }

  lemma KeptByPop(frames: seq<Frame>, f: Frame)
    requires frames != [] && f in frames && f != Last(frames)
    ensures f in Pop(frames)
  {
  }

  // ---------------------------------------------------------------- steps that move no job

  /** A step that changes neither the list nor the frames nor the job in hand. */
  lemma QuietStep(s: State, s': State, v: nat, p: Vp)
    requires Inv(s) && v < |s.vps| && Accounts(s, s', v, p)
    requires s'.jobs == s.jobs && s'.clock == s.clock
    requires p.list == s.vps[v].list && p.counter == s.vps[v].counter && p.frames == s.vps[v].frames
    requires InHand(p.pc) == InHand(s.vps[v].pc)
    requires InHand(p.pc).Some? ==> s.vps[v].pc.AtUncount? && p.pc.AtRun?
    requires PcFits(p) && ContextOk(p)
    requires SawEmpty(p.pc) ==> p.list == []
    ensures Inv(s')
  {
    assert VpOk(s.jobs, v, s.vps[v]);
    assert ListOk(s.jobs, v, p);
    assert HandOk(s.jobs, v, p.pc);
    JoblessStep(s, s', v, p);
  }

  lemma ReturnKeepsInv(s: State, v: nat)
    requires Inv(s) && v < |s.vps| && Enabled(s, v, Return)
    ensures Inv(Apply(s, v, Return))
  {
    assert VpOk(s.jobs, v, s.vps[v]);
    QuietStep(s, Apply(s, v, Return), v, s.vps[v].(pc := Returned));
  }

  lemma BackToCheckOk(p: Vp)
    requires p.frames != [] && Last(p.frames).Joining?
    requires p.context == SuspendedJobs(p.frames)
    ensures ContextOk(BackToCheck(p))
  {
    assert Pop(p.context) == SuspendedJobs(Pop(p.frames));
  }

  lemma GiveUpKeepsInv(s: State, v: nat)
    requires Inv(s) && v < |s.vps| && s.vps[v].pc.AtSteal?
    ensures Inv(DoGiveUp(s, v))
  {
    var p := s.vps[v];
    assert VpOk(s.jobs, v, p);
    if p.frames == [] {
      QuietStep(s, DoGiveUp(s, v), v, p.(pc := AtUncount(None)));
    } else {
      BackToCheckOk(p);
      QuietStep(s, DoGiveUp(s, v), v, BackToCheck(p));
    }
  }

  lemma SuspendKeepsInv(s: State, v: nat)
    requires Inv(s) && v < |s.vps| && s.vps[v].pc.AtCheck? && s.vps[v].frames != []
    requires Last(s.vps[v].frames).Joining? && !IsFinished(s.jobs, Last(s.vps[v].frames).target)
    ensures Inv(DoCheck(s, v))
  {
    var p := s.vps[v];
    assert VpOk(s.jobs, v, p);
    QuietStep(s, DoCheck(s, v), v, p.(context := p.context + [p.current], pc := AtPop));
  }

  lemma EmptyPopKeepsInv(s: State, v: nat)
    requires Inv(s) && v < |s.vps| && s.vps[v].pc.AtPop? && s.vps[v].list == []
    ensures Inv(DoPop(s, v))
  {
    var p := s.vps[v];
    assert VpOk(s.jobs, v, p);
    QuietStep(s, DoPop(s, v), v, p.(current := None, pc := if p.frames == [] then AtCount else AtSteal(0)));
  }

  lemma EmptyStealKeepsInv(s: State, v: nat, k: nat)
    requires Inv(s) && v < |s.vps| && k < |s.vps| && s.vps[v].pc.AtSteal? && (k == v || s.vps[k].list == [])
    ensures Inv(DoSteal(s, v, k))
  {
    assert VpOk(s.jobs, v, s.vps[v]);
    QuietStep(s, DoSteal(s, v, k), v, s.vps[v].(pc := AtSteal(k + 1)));
  }

  lemma UncountKeepsInv(s: State, v: nat, found: Option<JobId>)
    requires Inv(s) && v < |s.vps| && s.vps[v].pc == AtUncount(found)
    ensures Inv(DoUncount(s, v, found))
  {
    assert VpOk(s.jobs, v, s.vps[v]);
    QuietStep(s, DoUncount(s, v, found), v,
              s.vps[v].(pc := if found.Some? then AtRun(found.value) else AtPop));
  }

  /** When the last VP is counted, all the others are out of user code. */
  lemma CountKeepsInv(s: State, v: nat)
    requires Inv(s) && v < |s.vps| && s.vps[v].pc.AtCount?
    ensures Inv(DoCount(s, v))
  {
    var p := s.vps[v];
    assert VpOk(s.jobs, v, p);
    var steal := s.(idle := s.idle + 1, vps := s.vps[v := p.(pc := AtSteal(0))]);
    QuietStep(s, steal, v, p.(pc := AtSteal(0)));
    if s.idle + 1 == |s.vps| {
      LastCountedKeepsInv(steal, DoCount(s, v), v);
    }
  }

  lemma LastCountedKeepsInv(s: State, s': State, v: nat)
    requires Inv(s) && v < |s.vps| && s.vps[v].pc.AtSteal? && s.vps[v].frames == []
    requires s.idle == |s.vps|
    requires s' == s.(vps := s.vps[v := s.vps[v].(pc := Exited)])
    ensures Inv(s')
  {
    var p := s.vps[v].(pc := Exited);
    CountBound(s.vps);
    assert Counted(s.vps[0]) && VpOk(s.jobs, 0, s.vps[0]);
    assert MainCode !in s.vps[0].frames;
    assert VpOk(s.jobs, v, s.vps[v]);
    assert ListOk(s.jobs, v, p);
    VpsAfter(s.jobs, s.jobs, s.vps, v, p, 0);
    forall i | i in s.jobs
      ensures PlaceOk(s'.vps, i, s.jobs[i])
    {
      PlaceAfter(s.vps, v, p, None, i, s.jobs[i]);
    }
    CountUpdate(s.vps, v, p);
  }

  // ---------------------------------------------------------------- joins

  lemma CallJoinKeepsInv(s: State, v: nat, t: JobId)
    requires Inv(s) && v < |s.vps| && Enabled(s, v, CallJoin(t))
    ensures Inv(Apply(s, v, CallJoin(t)))
  {
    var p := s.vps[v];
    var p' := p.(frames := p.frames + [Joining(t)], pc := AtCheck);
    assert VpOk(s.jobs, v, p);
    assert VpOk(s.jobs, v, p') by {
      CallJoinVp(s.jobs, v, p, t);
    }
    JoblessStep(s, Apply(s, v, CallJoin(t)), v, p');
  }

  lemma CallJoinVp(jobs: map<JobId, Job>, v: nat, p: Vp, t: JobId)
    requires VpOk(jobs, v, p) && InUserCode(p) && t in jobs
    ensures VpOk(jobs, v, p.(frames := p.frames + [Joining(t)], pc := AtCheck))
  {
    PushFrame(jobs, v, p.frames, Joining(t));
    PushShape(v, p.frames, Joining(t));
    assert Pop(p.frames + [Joining(t)]) == p.frames;
    assert ListOk(jobs, v, p);
  }

  lemma JoinDoneKeepsInv(s: State, v: nat)
    requires Inv(s) && v < |s.vps| && s.vps[v].pc.AtCheck? && s.vps[v].frames != []
    requires Last(s.vps[v].frames).Joining? && IsFinished(s.jobs, Last(s.vps[v].frames).target)
    ensures Inv(DoCheck(s, v))
  {
    var p := s.vps[v];
    var p' := p.(frames := Pop(p.frames), pc := User);
    assert VpOk(s.jobs, v, p);
    JoinDoneVp(s.jobs, v, p);
    forall f | f in p.frames && f.Body?
      ensures f in p'.frames
    {
      KeptByPop(p.frames, f);
    }
    JoblessStep(s, DoCheck(s, v), v, p');
  }

  lemma JoinDoneVp(jobs: map<JobId, Job>, v: nat, p: Vp)
    requires VpOk(jobs, v, p) && p.pc.AtCheck?
    ensures p.frames != [] && VpOk(jobs, v, p.(frames := Pop(p.frames), pc := User))
  {
    PopShape(v, p.frames);
    PopFrames(jobs, v, p.frames);
    assert FrameFits(v, p.frames, |p.frames| - 1);
    assert ListOk(jobs, v, p);
  }

  lemma TerminateKeepsInv(s: State, v: nat)
    requires Inv(s) && v < |s.vps| && Enabled(s, v, Terminate)
    ensures Inv(Apply(s, v, Terminate))
  {
    var p := s.vps[v];
    assert VpOk(s.jobs, v, p);
    assert Pop(p.frames) == [];
    assert ListOk(s.jobs, v, p);
    JoblessStep(s, Apply(s, v, Terminate), v, p.(frames := [], current := None, pc := AtPop));
  }
}
