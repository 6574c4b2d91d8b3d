/** The work-stealing scheduler as a transition system over any number of virtual
    processors (VPs) and jobs.  A step is one atomic action of one VP: a locked list
    operation, a compare-and-swap, an atomic add, or a piece of code that touches only the
    VP's own fields.  User functions are arbitrary: at any moment they may fork a fresh
    job, join a forked job, or return. */
module Scheduler {
  import opened Options
  import opened HeapOrder

  type JobId = nat

  datatype JobState = Ready | Running | Finished

  /** Where a job is; a history variable, tied to the real fields by the invariant. */
  datatype Place = Listed(vp: nat) | Held(vp: nat) | Stacked(vp: nat) | Gone

  /** `state`, `id` and `parent` are the fields of an AnahyJob.  The others are history:
      the job whose code called fork (None for the main program), whether fork ran the job
      inline, where it is, how often its function was started, and when. */
  datatype Job = Job(
    state: JobState, id: nat, parent: Option<JobId>,
    forker: Option<JobId>, inlined: bool, place: Place, starts: nat, stamp: nat)

  /** One activation on a VP's call stack: the main program, a job's function (called
      from fork_job itself when `inlined`), or a pending join_job. */
  datatype Frame = MainCode | Body(job: JobId, inlined: bool) | Joining(target: JobId)

  /** The next atomic action of a VP.  Inside a join and in the run loop the same code
      looks for work; the two are told apart by the frames. */
  datatype Pc =
    | User                              // user code of the top frame
    | Returned                          // result written, about to CAS Running -> Finished
    | AtCheck                           // join_job: about to test the target's state
    | AtPop                             // get_job: about to lock the own list
    | Popped(job: JobId)                // get_job: about to CAS Ready -> Running
    | AtCount                           // run: own list seen empty, about to add to idle_vps
    | AtSteal(victim: nat)              // about to lock the list of `victim`
    | Stolen(job: JobId)                // steal_job: about to CAS Ready -> Running
    | AtUncount(found: Option<JobId>)   // run: about to subtract from idle_vps
    | AtRun(job: JobId)                 // about to call current_job->run()
    | Exited

  datatype Vp = Vp(
    list: seq<Entry<JobId>>, counter: nat,
    current: Option<JobId>, context: seq<Option<JobId>>,
    frames: seq<Frame>, pc: Pc)

  datatype State = State(vps: seq<Vp>, jobs: map<JobId, Job>, idle: int, clock: nat)

  const INLINE_DEPTH: nat := 10000

  function Last<T>(s: seq<T>): T
    requires s != []
  {
    s[|s| - 1]
  }

  function Pop<T>(s: seq<T>): (r: seq<T>)
    requires s != []
  {
    s[..|s| - 1]
  }

  /** AnahyVM::init: the main program runs on VP 0, the others enter the run loop. */
  function Initial(n: nat): State
    requires n >= 1
  {
    State(seq(n, v => if v == 0 then Vp([], 0, None, [], [MainCode], User)
                      else Vp([], 0, None, [], [], AtPop)),
          map[], 0, 1)
  }

  // ---------------------------------------------------------------- steps

  datatype Action = Fork(child: JobId) | CallJoin(target: JobId) | Return | Terminate | Advance

  function JobOf(f: Frame): Option<JobId>
  {
    if f.Body? then Some(f.job) else None
  }

  ghost predicate InUserCode(p: Vp)
  {
    p.pc.User? && p.frames != []
  }

  ghost predicate Enabled(s: State, v: nat, a: Action)
    requires v < |s.vps|
  {
    var p := s.vps[v];
    match a
    case Fork(child) => InUserCode(p) && child !in s.jobs
    case CallJoin(target) => InUserCode(p) && target in s.jobs
    case Return => InUserCode(p) && Last(p.frames).Body?
    case Terminate => InUserCode(p) && p.frames == [MainCode]
    case Advance => !p.pc.User? && !p.pc.Exited?
  }

  ghost function Apply(s: State, v: nat, a: Action): State
    requires v < |s.vps| && Enabled(s, v, a)
  {
    match a
    case Fork(child) => DoFork(s, v, child)
    case CallJoin(target) =>
      var p := s.vps[v];
      s.(vps := s.vps[v := p.(frames := p.frames + [Joining(target)], pc := AtCheck)])
    case Return => s.(vps := s.vps[v := s.vps[v].(pc := Returned)])
    case Terminate => s.(vps := s.vps[v := s.vps[v].(frames := [], current := None, pc := AtPop)])
    case Advance => DoAdvance(s, v)
  }

  function DoFork(s: State, v: nat, child: JobId): State
    requires v < |s.vps| && s.vps[v].frames != []
  {
    var p := s.vps[v];
    var forker := JobOf(Last(p.frames));
    if |p.context| > INLINE_DEPTH then
      s.(vps := s.vps[v := p.(counter := p.counter + 1, frames := p.frames + [Body(child, true)])],
         jobs := s.jobs[child := Job(Ready, p.counter, p.current, forker, true, Stacked(v), 1, s.clock)],
         clock := s.clock + 1)
    else
      s.(vps := s.vps[v := p.(counter := p.counter + 1, list := AfterInsert(p.list, Entry(p.counter, child)))],
         jobs := s.jobs[child := Job(Ready, p.counter, p.current, forker, false, Listed(v), 0, 0)])
  }

  function DoAdvance(s: State, v: nat): State
    requires v < |s.vps|
  {
    match s.vps[v].pc
    case Returned => DoFinish(s, v)
    case AtCheck => DoCheck(s, v)
    case AtPop => DoPop(s, v)
    case Popped(j) => DoClaim(s, v, j)
    case AtCount => DoCount(s, v)
    case AtSteal(k) => if k < |s.vps| then DoSteal(s, v, k) else DoGiveUp(s, v)
    case Stolen(j) => DoClaim(s, v, j)
    case AtUncount(found) => DoUncount(s, v, found)
    case AtRun(j) => DoRun(s, v, j)
    case _ => s
  }

  /** `compare_and_swap_state`; the result is ignored everywhere but in join_job. */
  function Cas(jobs: map<JobId, Job>, j: JobId, target: JobState, value: JobState): map<JobId, Job>
  {
    if j in jobs && jobs[j].state == target then jobs[j := jobs[j].(state := value)] else jobs
  }

  function MoveTo(jobs: map<JobId, Job>, j: JobId, place: Place): map<JobId, Job>
  {
    if j in jobs then jobs[j := jobs[j].(place := place)] else jobs
  }

  /** The second half of suspend_current_job_and_run_another: restore the current job. */
  function BackToCheck(p: Vp): Vp
  {
    if p.context == [] then p.(pc := AtCheck)
    else p.(current := Last(p.context), context := Pop(p.context), pc := AtCheck)
  }

  /** The end of AnahyJob::run: CAS Running -> Finished, then back to the caller, which is
      fork_job for an inlined job, the run loop, or a join. */
  function DoFinish(s: State, v: nat): State
    requires v < |s.vps|
  {
    var p := s.vps[v];
    if p.frames == [] || !Last(p.frames).Body? then s
    else
      var j := Last(p.frames).job;
      var q := p.(frames := Pop(p.frames));
      s.(jobs := MoveTo(Cas(s.jobs, j, Running, Finished), j, Gone),
         vps := s.vps[v := if Last(p.frames).inlined then q.(pc := User)
                           else if q.frames == [] then q.(pc := AtPop)
                           else BackToCheck(q)])
  }

  predicate IsFinished(jobs: map<JobId, Job>, j: JobId)
  {
    j in jobs && jobs[j].state == Finished
  }

  /** The loop test of join_job: leave the join, or suspend and look for another job. */
  function DoCheck(s: State, v: nat): State
    requires v < |s.vps|
  {
    var p := s.vps[v];
    if p.frames == [] || !Last(p.frames).Joining? then s
    else if IsFinished(s.jobs, Last(p.frames).target) then
      s.(vps := s.vps[v := p.(frames := Pop(p.frames), pc := User)])
    else
      s.(vps := s.vps[v := p.(context := p.context + [p.current], pc := AtPop)])
  }

  /** get_job under the own lock: take the last element of the own list. */
  function DoPop(s: State, v: nat): State
    requires v < |s.vps|
  {
    var p := s.vps[v];
    if p.list == [] then
      s.(vps := s.vps[v := p.(current := None, pc := if p.frames == [] then AtCount else AtSteal(0))])
    else
      var j := Last(p.list).job;
      s.(vps := s.vps[v := p.(list := AfterExtractLast(p.list), pc := Popped(j))],
         jobs := MoveTo(s.jobs, j, Held(v)))
  }

  /** The unchecked CAS Ready -> Running at the end of get_job and steal_job.  A thief in
      the run loop is still counted idle at this point. */
  function DoClaim(s: State, v: nat, j: JobId): State
    requires v < |s.vps|
  {
    var p := s.vps[v];
    var next := if p.pc.Stolen? && p.frames == [] then AtUncount(Some(j)) else AtRun(j);
    s.(vps := s.vps[v := p.(current := Some(j), pc := next)],
       jobs := Cas(s.jobs, j, Ready, Running))
  }

  /** Add to idle_vps, and leave the run loop if every VP is counted. */
  function DoCount(s: State, v: nat): State
    requires v < |s.vps|
  {
    s.(idle := s.idle + 1,
       vps := s.vps[v := s.vps[v].(pc := if s.idle + 1 == |s.vps| then Exited else AtSteal(0))])
  }

  /** steal_job on VP `k` under its lock: take the first element of its heap. */
  function DoSteal(s: State, v: nat, k: nat): State
    requires v < |s.vps| && k < |s.vps|
  {
    var p := s.vps[v];
    if k == v || s.vps[k].list == [] then
      s.(vps := s.vps[v := p.(pc := AtSteal(k + 1))])
    else
      var j := s.vps[k].list[0].job;
      s.(vps := s.vps[k := s.vps[k].(list := AfterExtractMin(s.vps[k].list))][v := p.(pc := Stolen(j))],
         jobs := MoveTo(s.jobs, j, Held(v)))
  }

  /** Every list was seen empty: stop being idle, or test the joined job again. */
  function DoGiveUp(s: State, v: nat): State
    requires v < |s.vps|
  {
    var p := s.vps[v];
    s.(vps := s.vps[v := if p.frames == [] then p.(pc := AtUncount(None)) else BackToCheck(p)])
  }

  function DoUncount(s: State, v: nat, found: Option<JobId>): State
    requires v < |s.vps|
  {
    s.(idle := s.idle - 1,
       vps := s.vps[v := s.vps[v].(pc := if found.Some? then AtRun(found.value) else AtPop)])
  }

  /** The call of the job's function. */
  function DoRun(s: State, v: nat, j: JobId): State
    requires v < |s.vps|
  {
    var p := s.vps[v];
    s.(vps := s.vps[v := p.(frames := p.frames + [Body(j, false)], pc := User)],
       jobs := if j in s.jobs
               then s.jobs[j := s.jobs[j].(place := Stacked(v), starts := s.jobs[j].starts + 1, stamp := s.clock)]
               else s.jobs,
       clock := s.clock + 1)
  }

  // ---------------------------------------------------------------- runs

  ghost predicate Step(s: State, s': State)
  {
    exists v: nat, a: Action :: v < |s.vps| && Enabled(s, v, a) && s' == Apply(s, v, a)
  }

  ghost predicate IsPath(path: seq<State>)
  {
    forall i :: 0 <= i < |path| - 1 ==> Step(path[i], path[i + 1])
  }

  /** A run of a machine with `n` VPs, from its initial state on. */
  ghost predicate IsRun(n: nat, run: seq<State>)
  {
    n >= 1 && run != [] && run[0] == Initial(n) && IsPath(run)
  }

  ghost predicate Reachable(n: nat, s: State)
  {
    exists run :: IsRun(n, run) && Last(run) == s
  }
}
