/** The invariant of the scheduler and its preservation by every step. */
module SchedulerInvariant {
  import opened Options
  import opened HeapOrder
  import opened Scheduler

  // ---------------------------------------------------------------- context discipline

  /** The job whose code the current_job field should name: the innermost function called
      from the run loop or a join, looking through inlined calls. */
  function CurrentOf(frames: seq<Frame>): Option<JobId>
  {
    if frames == [] then None
    else match Last(frames)
      case MainCode => None
      case Body(j, inlined) => if inlined then CurrentOf(Pop(frames)) else Some(j)
      case Joining(_) => CurrentOf(Pop(frames))
  }

  /** The jobs suspended in the pending joins of a call stack, outermost first. */
  function SuspendedJobs(frames: seq<Frame>): seq<Option<JobId>>
  {
    if frames == [] then []
    else if Last(frames).Joining? then SuspendedJobs(Pop(frames)) + [CurrentOf(Pop(frames))]
    else SuspendedJobs(Pop(frames))
  }

  ghost predicate ContextOk(p: Vp)
  {
    && p.context == (if p.pc.AtCheck? && p.frames != [] then SuspendedJobs(Pop(p.frames)) else SuspendedJobs(p.frames))
    && (p.pc.User? || p.pc.Returned? || p.pc.AtCheck? ==> p.current == CurrentOf(p.frames))
    && ((p.pc.AtRun? || p.pc.AtUncount?) && InHand(p.pc).Some? ==> p.current == InHand(p.pc))
  }

  // ---------------------------------------------------------------- shape of one VP

  ghost predicate FrameFits(v: nat, frames: seq<Frame>, i: nat)
    requires i < |frames|
  {
    match frames[i]
    case MainCode => i == 0 && v == 0
    case Body(_, inlined) =>
      if inlined then i > 0 && !frames[i - 1].Joining?
      else i > 0 ==> frames[i - 1].Joining?
    case Joining(_) => i > 0 && !frames[i - 1].Joining?
  }

  ghost predicate PcFits(p: Vp)
  {
    match p.pc
    case User => p.frames != [] && !Last(p.frames).Joining?
    case Returned => p.frames != [] && Last(p.frames).Body?
    case AtCheck => p.frames != [] && Last(p.frames).Joining?
    case AtCount => p.frames == []
    case AtUncount(_) => p.frames == []
    case Exited => p.frames == []
    case _ => p.frames == [] || Last(p.frames).Joining?
  }

  /** The points at which a VP has seen its own list empty and has not run a job since. */
  predicate SawEmpty(pc: Pc)
  {
    pc.AtCount? || pc.AtSteal? || pc.Stolen? || pc.AtUncount? || pc.Exited?
  }

  ghost predicate ShapeOk(v: nat, p: Vp)
  {
    && (forall i :: 0 <= i < |p.frames| ==> FrameFits(v, p.frames, i))
    && PcFits(p)
    && (SawEmpty(p.pc) ==> p.list == [])
  }

  // ---------------------------------------------------------------- jobs of one VP

  ghost predicate EntryOk(jobs: map<JobId, Job>, v: nat, counter: nat, e: Entry<JobId>)
  {
    && e.job in jobs && jobs[e.job].place == Listed(v)
    && e.id == jobs[e.job].id < counter
  }

  ghost predicate ListOk(jobs: map<JobId, Job>, v: nat, p: Vp)
  {
    && (forall e :: e in p.list ==> EntryOk(jobs, v, p.counter, e))
    && (forall e :: multiset(p.list)[e] <= 1)
  }

  function InHand(pc: Pc): Option<JobId>
  {
    match pc
    case Popped(j) => Some(j)
    case Stolen(j) => Some(j)
    case AtRun(j) => Some(j)
    case AtUncount(found) => found
    case _ => None
  }

  ghost predicate HandOk(jobs: map<JobId, Job>, v: nat, pc: Pc)
  {
    InHand(pc).Some? ==>
      && InHand(pc).value in jobs
      && jobs[InHand(pc).value].place == Held(v)
      && jobs[InHand(pc).value].state == if pc.Popped? || pc.Stolen? then Ready else Running
  }

  ghost predicate FrameOk(jobs: map<JobId, Job>, v: nat, f: Frame)
  {
    match f
    case MainCode => true
    case Body(j, inlined) =>
      && j in jobs && jobs[j].place == Stacked(v) && jobs[j].inlined == inlined
      && jobs[j].state == if inlined then Ready else Running
    case Joining(t) => t in jobs
  }

  /** A later-started job lies higher on the stack. */
  ghost predicate StampsRise(jobs: map<JobId, Job>, frames: seq<Frame>)
  {
    forall i, k :: 0 <= i < k < |frames| && frames[i].Body? && frames[k].Body?
      && frames[i].job in jobs && frames[k].job in jobs
      ==> jobs[frames[i].job].stamp < jobs[frames[k].job].stamp
  }

  ghost predicate FramesOk(jobs: map<JobId, Job>, v: nat, frames: seq<Frame>)
  {
    && (forall f :: f in frames ==> FrameOk(jobs, v, f))
    && StampsRise(jobs, frames)
  }

  ghost predicate VpOk(jobs: map<JobId, Job>, v: nat, p: Vp)
  {
    && ShapeOk(v, p)
    && ContextOk(p)
    && ListOk(jobs, v, p)
    && HandOk(jobs, v, p.pc)
    && FramesOk(jobs, v, p.frames)
  }

  // ---------------------------------------------------------------- one job

  /** The converse of VpOk: the job is where its place says. */
  ghost predicate PlaceOk(vps: seq<Vp>, j: JobId, job: Job)
  {
    match job.place
    case Listed(v) => v < |vps| && Entry(job.id, j) in vps[v].list && job.state == Ready && job.starts == 0
      && !job.inlined
    case Held(v) => v < |vps| && InHand(vps[v].pc) == Some(j) && job.state != Finished && job.starts == 0
      && !job.inlined
    case Stacked(v) =>
      && v < |vps| && Body(j, job.inlined) in vps[v].frames
      && job.state == (if job.inlined then Ready else Running) && job.starts == 1
    case Gone => job.state == (if job.inlined then Ready else Finished) && job.starts == 1
  }

  /** A job starts after the job that forked it, and that job is its parent. */
  ghost predicate LineageOk(jobs: map<JobId, Job>, clock: nat, job: Job)
  {
    && (job.starts == 1 ==> 0 < job.stamp < clock)
    && match job.forker
      case None => job.parent == None
      case Some(p) =>
        && p in jobs && jobs[p].starts == 1
        && (!jobs[p].inlined <==> job.parent == Some(p))
        && (job.starts == 1 ==> jobs[p].stamp < job.stamp)
  }

  // ---------------------------------------------------------------- the idle counter

  /** Between the atomic add and the atomic subtract of the run loop, or gone for good. */
  predicate Counted(p: Vp)
  {
    p.pc.Exited? || p.pc.AtUncount? || (p.frames == [] && (p.pc.AtSteal? || p.pc.Stolen?))
  }

  function CountIdle(vps: seq<Vp>): nat
  {
    if vps == [] then 0 else CountIdle(Pop(vps)) + if Counted(Last(vps)) then 1 else 0
  }

  ghost predicate ExitOk(vps: seq<Vp>)
    requires vps != []
  {
    MainCode in vps[0].frames ==> forall v :: 0 <= v < |vps| ==> !vps[v].pc.Exited?
  }

  ghost predicate VpsOk(jobs: map<JobId, Job>, vps: seq<Vp>)
  {
    forall v {:trigger VpOk(jobs, v, vps[v])} :: 0 <= v < |vps| ==> VpOk(jobs, v, vps[v])
  }

  ghost predicate PlacesOk(vps: seq<Vp>, jobs: map<JobId, Job>)
  {
    forall j {:trigger PlaceOk(vps, j, jobs[j])} :: j in jobs ==> PlaceOk(vps, j, jobs[j])
  }

  ghost predicate LineagesOk(jobs: map<JobId, Job>, clock: nat)
  {
    forall j {:trigger LineageOk(jobs, clock, jobs[j])} :: j in jobs ==> LineageOk(jobs, clock, jobs[j])
  }

  ghost predicate Inv(s: State)
  {
    && s.vps != [] && s.clock >= 1
    && VpsOk(s.jobs, s.vps)
    && PlacesOk(s.vps, s.jobs)
    && LineagesOk(s.jobs, s.clock)
    && s.idle == CountIdle(s.vps)
    && ExitOk(s.vps)
  }

  // ---------------------------------------------------------------- counting lemmas

  lemma {:induction false} CountUpdate(vps: seq<Vp>, v: nat, p: Vp)
    requires v < |vps|
    ensures CountIdle(vps[v := p]) + (if Counted(vps[v]) then 1 else 0) == CountIdle(vps) + if Counted(p) then 1 else 0
    decreases |vps|
  {
    if v == |vps| - 1 {
      assert Pop(vps[v := p]) == Pop(vps);
    } else {
      assert Pop(vps[v := p]) == Pop(vps)[v := p];
      CountUpdate(Pop(vps), v, p);
    }
  }

  lemma {:induction false} CountBound(vps: seq<Vp>)
    ensures CountIdle(vps) <= |vps|
    ensures CountIdle(vps) == |vps| <==> forall v :: 0 <= v < |vps| ==> Counted(vps[v])
    decreases |vps|
  {
    if vps != [] {
      CountBound(Pop(vps));
    }
  }
}
