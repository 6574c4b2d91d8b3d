/** The client program par_fib on the scheduler: whatever the schedule and the number of
    VPs, the main program's join returns with the Fibonacci number in its cell. */
module Fibonacci {
  import opened Options
  import opened Scheduler
  import opened SchedulerInvariant
  import opened SchedulerJobSteps
  import opened SchedulerResults
  import opened SchedulerWaiting
  import opened SchedulerProgress

  function Fib(n: int): int
    decreases if n < 0 then 0 else n
  {
    if n < 2 then n else Fib(n - 1) + Fib(n - 2)
  }

  /** How far the code of a job has got. */
  datatype At =
    | Begin | LeftForked | BothForked
    | JoiningRight | RightJoined | JoiningLeft | LeftJoined
    | Written | Done

  /** The activation of par_fib for one job: `cell` is the long that its argument points
      to, `arg` the value that cell had when the job was forked; `left` and `right` are the
      jobs for n_minus_1 and n_minus_2. */
  datatype Local = Local(arg: int, cell: int, at: At, left: JobId, right: JobId)

  datatype MainAt = MainBegin | RootForked | JoiningRoot | RootJoined | Ended

  datatype Program = Program(s: State, n: int, main: MainAt, root: JobId, locals: map<JobId, Local>)

  datatype Event = Sched(a: Action) | WriteSum

  function NewLocal(n: int): Local
  {
    Local(n, n, Begin, 0, 0)
  }

  /** Which actions the program text allows next. */
  ghost predicate Allowed(f: Program, v: nat, e: Event)
    requires v < |f.s.vps|
  {
    var p := f.s.vps[v];
    match e
    case WriteSum => InUserCode(p) && InBody(f, p) && var l := f.locals[Last(p.frames).job];
      l.at.LeftJoined? && l.left in f.locals && l.right in f.locals
    case Sched(a) =>
      && Enabled(f.s, v, a)
      && match a
         case Advance => true
         case Terminate => f.main.RootJoined?
         case Return => InBody(f, p)
           && var l := f.locals[Last(p.frames).job]; l.at.Written? || (l.at.Begin? && l.cell < 2)
         case Fork(_) =>
           if Last(p.frames).MainCode? then f.main.MainBegin?
           else InBody(f, p) && var l := f.locals[Last(p.frames).job]; (l.at.Begin? && l.cell >= 2) || l.at.LeftForked?
         case CallJoin(t) =>
           if Last(p.frames).MainCode? then f.main.RootForked? && t == f.root
           else InBody(f, p) && var l := f.locals[Last(p.frames).job];
             (l.at.BothForked? && t == l.right) || (l.at.RightJoined? && t == l.left)
  }

  ghost predicate InBody(f: Program, p: Vp)
  {
    p.frames != [] && Last(p.frames).Body? && Last(p.frames).job in f.locals
  }

  /** A join of VP `p` is about to return. */
  ghost predicate ReturnsFromJoin(s: State, p: Vp)
  {
    p.pc.AtCheck? && |p.frames| >= 2 && Last(p.frames).Joining? && IsFinished(s.jobs, Last(p.frames).target)
  }

  ghost function Do(f: Program, v: nat, e: Event): Program
    requires v < |f.s.vps| && Allowed(f, v, e)
  {
    var p := f.s.vps[v];
    match e
    case WriteSum =>
      var j := Last(p.frames).job;
      var l := f.locals[j];
      f.(locals := f.locals[j := l.(cell := f.locals[l.left].cell + f.locals[l.right].cell, at := Written)])
    case Sched(a) =>
      var g := f.(s := Apply(f.s, v, a));
      match a
      case Terminate => g.(main := Ended)
      case Return => g.(locals := MoveTo(f.locals, Last(p.frames).job, Done))
      case Fork(child) =>
        if Last(p.frames).MainCode? then
          g.(main := RootForked, root := child, locals := f.locals[child := NewLocal(f.n)])
        else
          var j := Last(p.frames).job;
          var l := f.locals[j];
          if l.at.Begin? then
            g.(locals := f.locals[child := NewLocal(l.cell - 1)][j := l.(at := LeftForked, left := child)])
          else
            g.(locals := f.locals[child := NewLocal(l.cell - 2)][j := l.(at := BothForked, right := child)])
      case CallJoin(t) =>
        if Last(p.frames).MainCode? then g.(main := JoiningRoot)
        else
          var j := Last(p.frames).job;
          g.(locals := MoveTo(f.locals, j, if f.locals[j].at.BothForked? then JoiningRight else JoiningLeft))
      case Advance =>
        if !ReturnsFromJoin(f.s, p) then g
        else match p.frames[|p.frames| - 2]
          case MainCode => g.(main := RootJoined)
          case Joining(_) => g
          case Body(j, _) =>
            if j in f.locals then
              g.(locals := MoveTo(f.locals, j, if f.locals[j].at.JoiningRight? then RightJoined else LeftJoined))
            else g
  }

  function MoveTo(locals: map<JobId, Local>, j: JobId, at: At): map<JobId, Local>
    requires j in locals
  {
    locals[j := locals[j].(at := at)]
  }

  // ---------------------------------------------------------------- the invariant

  ghost predicate ChildOk(jobs: map<JobId, Job>, locals: map<JobId, Local>, child: JobId, parent: JobId, arg: int)
  {
    child in jobs && child in locals && locals[child].arg == arg && jobs[child].forker == Some(parent)
  }

  ghost predicate LocalOk(jobs: map<JobId, Job>, locals: map<JobId, Local>, j: JobId, l: Local)
  {
    && (if l.at.Written? || l.at.Done? then l.cell == Fib(l.arg) else l.cell == l.arg)
    && (!l.at.Begin? && !l.at.Written? && !l.at.Done? ==>
          l.arg >= 2 && ChildOk(jobs, locals, l.left, j, l.arg - 1))
    && (l.at.BothForked? || l.at.JoiningRight? || l.at.RightJoined? || l.at.JoiningLeft? || l.at.LeftJoined? ==>
          ChildOk(jobs, locals, l.right, j, l.arg - 2))
    && (l.at.RightJoined? || l.at.JoiningLeft? || l.at.LeftJoined? ==> IsFinished(jobs, l.right))
    && (l.at.LeftJoined? ==> IsFinished(jobs, l.left))
    && (IsFinished(jobs, j) ==> l.at.Done?)
  }

  /** The pending join directly above `caller` is the one the code of `caller` is at. */
  ghost predicate JoinMatches(f: Program, caller: Frame, t: JobId)
  {
    match caller
    case MainCode => f.main.JoiningRoot? && t == f.root
    case Joining(_) => true
    case Body(j, _) =>
      j in f.locals && var l := f.locals[j];
      (l.at.JoiningRight? && t == l.right) || (l.at.JoiningLeft? && t == l.left)
  }

  ghost predicate StackMatches(f: Program, frames: seq<Frame>)
  {
    forall i :: 0 < i < |frames| && frames[i].Joining? ==> JoinMatches(f, frames[i - 1], frames[i].target)
  }

  ghost predicate VpMatches(f: Program, p: Vp)
  {
    && StackMatches(f, p.frames)
    && (p.pc.Returned? && p.frames != [] && Last(p.frames).Body? ==>
          Last(p.frames).job in f.locals && f.locals[Last(p.frames).job].at.Done?)
  }

  ghost predicate MainOk(f: Program)
  {
    && (!f.main.MainBegin? ==>
          f.root in f.s.jobs && f.root in f.locals && f.locals[f.root].arg == f.n && f.s.jobs[f.root].forker == None)
    && (f.main.RootJoined? || f.main.Ended? ==> IsFinished(f.s.jobs, f.root))
  }

  ghost predicate LocalsOk(f: Program)
  {
    forall j {:trigger LocalOk(f.s.jobs, f.locals, j, f.locals[j])} :: j in f.locals ==>
      LocalOk(f.s.jobs, f.locals, j, f.locals[j])
  }

  ghost predicate VpsMatch(f: Program)
  {
    forall v {:trigger VpMatches(f, f.s.vps[v])} :: 0 <= v < |f.s.vps| ==> VpMatches(f, f.s.vps[v])
  }

  ghost predicate Correct(f: Program)
  {
    Inv(f.s) && f.locals.Keys == f.s.jobs.Keys && LocalsOk(f) && VpsMatch(f) && MainOk(f)
  }

  // ---------------------------------------------------------------- frame lemmas

  /** Finished jobs stay Finished, jobs keep their forker, and only the end of a job's
      function makes it Finished. */
  lemma JobsAfter(s: State, v: nat, a: Action)
    requires v < |s.vps| && Enabled(s, v, a)
    ensures forall j :: j in s.jobs ==> j in Apply(s, v, a).jobs && Apply(s, v, a).jobs[j].forker == s.jobs[j].forker
    ensures forall j :: IsFinished(s.jobs, j) ==> IsFinished(Apply(s, v, a).jobs, j)
    ensures forall j :: IsFinished(Apply(s, v, a).jobs, j) && !IsFinished(s.jobs, j) ==>
              s.vps[v].pc.Returned? && s.vps[v].frames != []
                && Last(s.vps[v].frames) == Body(j, Last(s.vps[v].frames).inlined)
    ensures a.Fork? ==>
              && Apply(s, v, a).jobs.Keys == s.jobs.Keys + {a.child}
              && Apply(s, v, a).jobs[a.child].forker == JobOf(Last(s.vps[v].frames))
    ensures !a.Fork? ==> Apply(s, v, a).jobs.Keys == s.jobs.Keys
  {
  }

  /** Nothing that LocalOk relies on is lost. */
  ghost predicate Grows(f: Program, g: Program)
  {
    && (forall c :: c in f.s.jobs ==> c in g.s.jobs && g.s.jobs[c].forker == f.s.jobs[c].forker)
    && (forall c :: IsFinished(f.s.jobs, c) ==> IsFinished(g.s.jobs, c))
    && (forall c :: c in f.locals ==> c in g.locals && g.locals[c].arg == f.locals[c].arg)
  }

  lemma LocalFrame(f: Program, g: Program, i: JobId, l: Local)
    requires Grows(f, g) && LocalOk(f.s.jobs, f.locals, i, l)
    requires IsFinished(g.s.jobs, i) ==> l.at.Done?
    ensures LocalOk(g.s.jobs, g.locals, i, l)
  {
  }

  /** The callers of the joins on a stack, and the main program if it is there, have not
      moved. */
  ghost predicate CallersKept(f: Program, g: Program, frames: seq<Frame>)
  {
    && (forall i :: 0 <= i < |frames| - 1 && frames[i].Body? && frames[i].job in f.locals ==>
          frames[i].job in g.locals && g.locals[frames[i].job] == f.locals[frames[i].job])
    && (MainCode in frames && |frames| > 1 ==> g.main == f.main && g.root == f.root)
  }

  lemma StackFrame(f: Program, g: Program, frames: seq<Frame>)
    requires StackMatches(f, frames) && CallersKept(f, g, frames)
    ensures StackMatches(g, frames)
  {
    forall i | 0 < i < |frames| && frames[i].Joining?
      ensures JoinMatches(g, frames[i - 1], frames[i].target)
    {
      assert JoinMatches(f, frames[i - 1], frames[i].target);
    }
  }

  lemma StackPop(f: Program, frames: seq<Frame>)
    requires frames != [] && StackMatches(f, frames)
    ensures StackMatches(f, Pop(frames))
  {
    forall i | 0 < i < |frames| - 1 && Pop(frames)[i].Joining?
      ensures JoinMatches(f, Pop(frames)[i - 1], Pop(frames)[i].target)
    {
      assert JoinMatches(f, frames[i - 1], frames[i].target);
    }
  }

  lemma StackPush(f: Program, frames: seq<Frame>, x: Frame)
    requires frames != [] && StackMatches(f, frames)
    requires x.Joining? ==> JoinMatches(f, Last(frames), x.target)
    ensures StackMatches(f, frames + [x])
  {
    var fs := frames + [x];
    forall i | 0 < i < |fs| && fs[i].Joining?
      ensures JoinMatches(f, fs[i - 1], fs[i].target)
    {
      if i < |frames| {
        assert JoinMatches(f, frames[i - 1], frames[i].target);
      }
    }
  }

  /** What an event changes outside the scheduler: only the local state of `j`, which is the
      job or main program at position `i` of the stack of VP `v`, and of fresh jobs. */
  ghost predicate Confined(f: Program, g: Program, v: nat, i: nat)
    requires v < |f.s.vps| && i < |f.s.vps[v].frames|
  {
    var x := f.s.vps[v].frames[i];
    && (forall c :: c in f.locals && x != Body(c, false) && x != Body(c, true) ==>
          c in g.locals && g.locals[c] == f.locals[c])
    && (x != MainCode ==> g.main == f.main && g.root == f.root)
  }

  /** Then every stack keeps its callers, where the job is not one of them. */
  lemma ConfinedKeepsCallers(f: Program, g: Program, v: nat, i: nat, w: nat, frames: seq<Frame>)
    requires Inv(f.s) && v < |f.s.vps| && i < |f.s.vps[v].frames| && w < |f.s.vps|
    requires !f.s.vps[v].frames[i].Joining? && Confined(f, g, v, i)
    requires |frames| <= |f.s.vps[w].frames| && frames == f.s.vps[w].frames[..|frames|]
    requires w == v ==> |frames| <= i + 1
    ensures CallersKept(f, g, frames)
  {
    var x := f.s.vps[v].frames[i];
    forall k | 0 <= k < |frames| - 1 && frames[k].Body? && frames[k].job in f.locals
      ensures frames[k].job in g.locals && g.locals[frames[k].job] == f.locals[frames[k].job]
    {
      if x.Body? && x.job == frames[k].job {
        BodyUnique(f.s, v, i, w, k);
      }
    }
    if MainCode in frames && |frames| > 1 && x == MainCode {
      MainAtBottom(f.s, v, i);
      var k :| 0 <= k < |frames| && frames[k] == MainCode;
      assert f.s.vps[w].frames[k] == MainCode;
      MainAtBottom(f.s, w, k);
    }
  }

  /** The other VPs do not notice. */
  lemma OthersMatch(f: Program, g: Program, v: nat, i: nat, a: Action)
    requires Inv(f.s) && VpsMatch(f) && v < |f.s.vps| && i < |f.s.vps[v].frames| && Enabled(f.s, v, a)
    requires !f.s.vps[v].frames[i].Joining? && Confined(f, g, v, i) && g.s == Apply(f.s, v, a)
    ensures |g.s.vps| == |f.s.vps|
    ensures forall w :: 0 <= w < |g.s.vps| && w != v ==> VpMatches(g, g.s.vps[w])
  {
    StepKeepsVps(f.s, v, a);
    forall w: nat | w < |g.s.vps| && w != v
      ensures VpMatches(g, g.s.vps[w])
    {
      OtherVp(f.s, v, a, w);
      OtherMatches(f, g, v, i, w);
    }
  }

  lemma OtherMatches(f: Program, g: Program, v: nat, i: nat, w: nat)
    requires Inv(f.s) && v < |f.s.vps| && i < |f.s.vps[v].frames|
    requires w < |f.s.vps| && w < |g.s.vps| && w != v && VpMatches(f, f.s.vps[w])
    requires !f.s.vps[v].frames[i].Joining? && Confined(f, g, v, i)
    requires g.s.vps[w].frames == f.s.vps[w].frames && g.s.vps[w].pc == f.s.vps[w].pc
    ensures VpMatches(g, g.s.vps[w])
  {
    var q := f.s.vps[w];
    assert q.frames[..|q.frames|] == q.frames;
    ConfinedKeepsCallers(f, g, v, i, w, q.frames);
    StackFrame(f, g, q.frames);
    if q.pc.Returned? && q.frames != [] && Last(q.frames).Body? && f.s.vps[v].frames[i].Body?
      && Last(q.frames).job == f.s.vps[v].frames[i].job {
      BodyUnique(f.s, v, i, w, |q.frames| - 1);
    }
  }

  // ---------------------------------------------------------------- events of user code

  /** The bookkeeping shared by all events of user code in the frame on top of VP `v`. */
  lemma UserEvent(f: Program, g: Program, v: nat, a: Action)
    requires Correct(f) && v < |f.s.vps| && Enabled(f.s, v, a) && InUserCode(f.s.vps[v])
    requires g.s == Apply(f.s, v, a) && g.locals.Keys == g.s.jobs.Keys
    requires Confined(f, g, v, |f.s.vps[v].frames| - 1)
    requires Grows(f, g)
    requires forall i :: i in g.locals && (i !in f.locals || g.locals[i] != f.locals[i]) ==>
             LocalOk(g.s.jobs, g.locals, i, g.locals[i])
    requires VpMatches(g, g.s.vps[v]) && MainOk(g)
    ensures Correct(g)
  {
    StepKeepsInv(f.s, v, a);
    assert VpOk(f.s.jobs, v, f.s.vps[v]);
    OthersMatch(f, g, v, |f.s.vps[v].frames| - 1, a);
    JobsAfter(f.s, v, a);
    forall i | i in g.locals
      ensures LocalOk(g.s.jobs, g.locals, i, g.locals[i])
    {
      if i in f.locals && g.locals[i] == f.locals[i] {
        assert LocalOk(f.s.jobs, f.locals, i, f.locals[i]);
        LocalFrame(f, g, i, f.locals[i]);
      }
    }
  }

  lemma OwnStack(f: Program, g: Program, v: nat)
    requires Correct(f) && v < |f.s.vps| && f.s.vps[v].frames != [] && !Last(f.s.vps[v].frames).Joining?
    requires Confined(f, g, v, |f.s.vps[v].frames| - 1)
    ensures StackMatches(g, f.s.vps[v].frames)
  {
    var frames := f.s.vps[v].frames;
    assert VpMatches(f, f.s.vps[v]);
    assert frames[..|frames|] == frames;
    ConfinedKeepsCallers(f, g, v, |frames| - 1, v, frames);
    StackFrame(f, g, frames);
  }

  lemma TopLocal(f: Program, v: nat)
    requires Correct(f) && v < |f.s.vps| && InUserCode(f.s.vps[v])
    ensures !Last(f.s.vps[v].frames).Joining?
    ensures var x := Last(f.s.vps[v].frames); x.Body? ==>
              x.job in f.locals && LocalOk(f.s.jobs, f.locals, x.job, f.locals[x.job]) && !IsFinished(f.s.jobs, x.job)
  {
    assert VpOk(f.s.jobs, v, f.s.vps[v]);
    if Last(f.s.vps[v].frames).Body? {
      FrameHasJob(f.s, v, |f.s.vps[v].frames| - 1);
      assert PlaceOk(f.s.vps, Last(f.s.vps[v].frames).job, f.s.jobs[Last(f.s.vps[v].frames).job]);
    }
  }

  /** An event that only moves job `j`, on top of VP `v`, to the local state `l`. */
  ghost predicate Moves(f: Program, g: Program, v: nat, j: JobId, l: Local)
  {
    && v < |f.s.vps| && f.s.vps[v].frames != []
    && Last(f.s.vps[v].frames).Body? && Last(f.s.vps[v].frames).job == j
    && j in f.locals && l.arg == f.locals[j].arg
    && g.locals == f.locals[j := l] && g.main == f.main && g.root == f.root && g.n == f.n
  }

  lemma MovesOk(f: Program, g: Program, v: nat, a: Action, j: JobId, l: Local)
    requires Correct(f) && Moves(f, g, v, j, l) && InUserCode(f.s.vps[v])
    requires Enabled(f.s, v, a) && !a.Fork? && g.s == Apply(f.s, v, a)
    requires LocalOk(f.s.jobs, f.locals, j, l)
    ensures Confined(f, g, v, |f.s.vps[v].frames| - 1) && Grows(f, g) && MainOk(g) && g.locals.Keys == g.s.jobs.Keys
    ensures LocalOk(g.s.jobs, g.locals, j, l)
  {
    JobsAfter(f.s, v, a);
    LocalFrame(f, g, j, l);
  }

  lemma ReturnEvent(f: Program, v: nat)
    requires Correct(f) && v < |f.s.vps| && Allowed(f, v, Sched(Return))
    ensures Correct(Do(f, v, Sched(Return)))
  {
    var g := Do(f, v, Sched(Return));
    TopLocal(f, v);
    var j := Last(f.s.vps[v].frames).job;
    var l := f.locals[j].(at := Done);
    MovesOk(f, g, v, Return, j, l);
    OwnStack(f, g, v);
    UserEvent(f, g, v, Return);
  }

  lemma CallJoinEvent(f: Program, v: nat, t: JobId)
    requires Correct(f) && v < |f.s.vps| && Allowed(f, v, Sched(CallJoin(t)))
    ensures Correct(Do(f, v, Sched(CallJoin(t))))
  {
    var g := Do(f, v, Sched(CallJoin(t)));
    var frames := f.s.vps[v].frames;
    TopLocal(f, v);
    if Last(frames).MainCode? {
      JobsAfter(f.s, v, CallJoin(t));
    } else {
      var j := Last(frames).job;
      MovesOk(f, g, v, CallJoin(t), j, g.locals[j]);
    }
    OwnStack(f, g, v);
    CallJoinStack(f, g, v, t);
    UserEvent(f, g, v, CallJoin(t));
  }

  lemma CallJoinStack(f: Program, g: Program, v: nat, t: JobId)
    requires v < |f.s.vps| && Allowed(f, v, Sched(CallJoin(t))) && g == Do(f, v, Sched(CallJoin(t)))
    requires StackMatches(g, f.s.vps[v].frames) && !Last(f.s.vps[v].frames).Joining?
    ensures v < |g.s.vps| && VpMatches(g, g.s.vps[v])
  {
    StackPush(g, f.s.vps[v].frames, Joining(t));
  }

  lemma TerminateEvent(f: Program, v: nat)
    requires Correct(f) && v < |f.s.vps| && Allowed(f, v, Sched(Terminate))
    ensures Correct(Do(f, v, Sched(Terminate)))
  {
    var g := Do(f, v, Sched(Terminate));
    JobsAfter(f.s, v, Terminate);
    UserEvent(f, g, v, Terminate);
  }

  // ---------------------------------------------------------------- forking

  /** The local state of the forking job after the fork. */
  function AfterFork(l: Local, child: JobId): Local
  {
    if l.at.Begin? then l.(at := LeftForked, left := child) else l.(at := BothForked, right := child)
  }

  function ChildArg(l: Local): int
  {
    if l.at.Begin? then l.cell - 1 else l.cell - 2
  }

  /** The fork, in terms of what it changes. */
  lemma ForkShape(f: Program, g: Program, v: nat, child: JobId)
    requires v < |f.s.vps| && Allowed(f, v, Sched(Fork(child))) && g == Do(f, v, Sched(Fork(child)))
    ensures Enabled(f.s, v, Fork(child)) && g.s == DoFork(f.s, v, child)
    ensures match Last(f.s.vps[v].frames)
            case Body(j, _) =>
              && j in f.locals && g.main == f.main && g.root == f.root
              && g.locals == f.locals[child := NewLocal(ChildArg(f.locals[j]))][j := AfterFork(f.locals[j], child)]
            case MainCode => g.locals == f.locals[child := NewLocal(f.n)]
            case Joining(_) => InBody(f, f.s.vps[v])
  {
    hide DoFork;
  }

  lemma ForkGrows(f: Program, g: Program, v: nat, child: JobId)
    requires f.locals.Keys == f.s.jobs.Keys
    requires v < |f.s.vps| && Allowed(f, v, Sched(Fork(child))) && g == Do(f, v, Sched(Fork(child)))
    ensures Confined(f, g, v, |f.s.vps[v].frames| - 1) && Grows(f, g) && g.locals.Keys == g.s.jobs.Keys
    ensures !IsFinished(g.s.jobs, child)
  {
    hide Do, DoFork, Allowed;
    ForkShape(f, g, v, child);
    ForkIsNew(f.s, v, child);
    assert child !in f.locals;
  }

  lemma ForkBody(f: Program, g: Program, v: nat, child: JobId)
    requires f.locals.Keys == f.s.jobs.Keys
    requires v < |f.s.vps| && Allowed(f, v, Sched(Fork(child))) && g == Do(f, v, Sched(Fork(child)))
    requires Last(f.s.vps[v].frames).Body?
    ensures var j := Last(f.s.vps[v].frames).job;
            && j in f.locals
            && g.locals == f.locals[child := NewLocal(ChildArg(f.locals[j]))][j := AfterFork(f.locals[j], child)]
            && j != child && child in g.s.jobs && g.s.jobs[child].forker == Some(j)
  {
    hide Do, DoFork, Allowed;
    ForkShape(f, g, v, child);
    ForkIsNew(f.s, v, child);
  }

  lemma ForkIsNew(s: State, v: nat, child: JobId)
    requires v < |s.vps| && Enabled(s, v, Fork(child))
    ensures child in DoFork(s, v, child).jobs && DoFork(s, v, child).jobs[child].state == Ready
    ensures DoFork(s, v, child).jobs.Keys == s.jobs.Keys + {child}
    ensures forall c :: c in s.jobs ==> DoFork(s, v, child).jobs[c] == s.jobs[c]
    ensures DoFork(s, v, child).jobs[child].forker == JobOf(Last(s.vps[v].frames))
  {
  }

  lemma ForkLocals(f: Program, g: Program, v: nat, child: JobId)
    requires Correct(f) && v < |f.s.vps| && Allowed(f, v, Sched(Fork(child))) && g == Do(f, v, Sched(Fork(child)))
    requires Last(f.s.vps[v].frames).Body?
    ensures var j := Last(f.s.vps[v].frames).job; j in g.locals && LocalOk(g.s.jobs, g.locals, j, g.locals[j])
    ensures child in g.locals && LocalOk(g.s.jobs, g.locals, child, g.locals[child])
  {
    ForkGrows(f, g, v, child);
    ForkBody(f, g, v, child);
    TopLocal(f, v);
    JobsAfter(f.s, v, Fork(child));
    var j := Last(f.s.vps[v].frames).job;
    var l := f.locals[j];
    assert LocalOk(f.s.jobs, f.locals, j, l);
  }

  lemma ForkEvent(f: Program, v: nat, child: JobId)
    requires Correct(f) && v < |f.s.vps| && Allowed(f, v, Sched(Fork(child)))
    ensures Correct(Do(f, v, Sched(Fork(child))))
  {
    hide Inv, Grows, Confined, MainOk, VpMatches, StackMatches, DoFork;
    var g := Do(f, v, Sched(Fork(child)));
    ForkGrows(f, g, v, child);
    OwnStack(f, g, v);
    if Last(f.s.vps[v].frames).Body? {
      ForkBody(f, g, v, child);
      ForkLocals(f, g, v, child);
    } else {
      TopLocal(f, v);
      JobsAfter(f.s, v, Fork(child));
    }
    ForkMain(f, g, v, child);
    ForkStack(f, g, v, child);
    UserEvent(f, g, v, Fork(child));
  }

  lemma ForkMain(f: Program, g: Program, v: nat, child: JobId)
    requires Correct(f) && v < |f.s.vps| && Allowed(f, v, Sched(Fork(child))) && g == Do(f, v, Sched(Fork(child)))
    ensures MainOk(g)
  {
    ForkGrows(f, g, v, child);
    TopLocal(f, v);
    JobsAfter(f.s, v, Fork(child));
  }

  lemma ForkStack(f: Program, g: Program, v: nat, child: JobId)
    requires v < |f.s.vps| && Allowed(f, v, Sched(Fork(child))) && g == Do(f, v, Sched(Fork(child)))
    requires StackMatches(g, f.s.vps[v].frames)
    ensures v < |g.s.vps| && VpMatches(g, g.s.vps[v])
  {
    if |f.s.vps[v].context| > INLINE_DEPTH {
      StackPush(g, f.s.vps[v].frames, Body(child, true));
    }
  }

  // ---------------------------------------------------------------- writing the sum

  lemma WriteEvent(f: Program, v: nat)
    requires Correct(f) && v < |f.s.vps| && Allowed(f, v, WriteSum)
    ensures Correct(Do(f, v, WriteSum))
  {
    var g := Do(f, v, WriteSum);
    var j := Last(f.s.vps[v].frames).job;
    WriteLocal(f, g, v);
    TopLocal(f, v);
    OwnStack(f, g, v);
    forall w: nat | w < |g.s.vps|
      ensures VpMatches(g, g.s.vps[w])
    {
      assert VpMatches(f, f.s.vps[w]);
      if w != v {
        OtherMatches(f, g, v, |f.s.vps[v].frames| - 1, w);
      }
    }
    forall i | i in g.locals
      ensures LocalOk(g.s.jobs, g.locals, i, g.locals[i])
    {
      if i != j {
        LocalFrame(f, g, i, f.locals[i]);
      }
    }
  }

  /** Both children are Finished, so their cells hold their Fibonacci numbers. */
  lemma SumIsFib(f: Program, j: JobId)
    requires LocalsOk(f) && j in f.locals && f.locals[j].at.LeftJoined?
    ensures var l := f.locals[j];
            && l.left in f.locals && l.right in f.locals
            && f.locals[l.left].cell + f.locals[l.right].cell == Fib(l.arg)
            && !IsFinished(f.s.jobs, j)
  {
    var l := f.locals[j];
    assert LocalOk(f.s.jobs, f.locals, j, l);
    assert LocalOk(f.s.jobs, f.locals, l.left, f.locals[l.left]);
    assert LocalOk(f.s.jobs, f.locals, l.right, f.locals[l.right]);
  }

  lemma WriteLocal(f: Program, g: Program, v: nat)
    requires f.locals.Keys == f.s.jobs.Keys && LocalsOk(f) && MainOk(f)
    requires v < |f.s.vps| && Allowed(f, v, WriteSum) && g == Do(f, v, WriteSum)
    ensures Confined(f, g, v, |f.s.vps[v].frames| - 1) && Grows(f, g) && MainOk(g) && g.locals.Keys == g.s.jobs.Keys
    ensures var j := Last(f.s.vps[v].frames).job; j in g.locals && LocalOk(g.s.jobs, g.locals, j, g.locals[j])
  {
    SumIsFib(f, Last(f.s.vps[v].frames).job);
  }

  // ---------------------------------------------------------------- scheduler actions

  /** Scheduler actions push only the frame of a job that starts, and never leave a VP just
      before the end of a job. */
  lemma AdvanceStack(s: State, v: nat)
    requires v < |s.vps| && Enabled(s, v, Advance) && PcFits(s.vps[v])
    ensures |Apply(s, v, Advance).vps| == |s.vps|
    ensures var p' := Apply(s, v, Advance).vps[v];
            && StackStep(s.vps[v].frames, p'.frames)
            && !p'.pc.Returned?
            && (|p'.frames| > |s.vps[v].frames| ==> Last(p'.frames).Body?)
  {
  }

  /** Local code is unchanged by all scheduler actions but the return of a join. */
  lemma SilentEvent(f: Program, g: Program, v: nat)
    requires Correct(f) && v < |f.s.vps| && Enabled(f.s, v, Advance)
    requires !ReturnsFromJoin(f.s, f.s.vps[v])
    requires g == f.(s := Apply(f.s, v, Advance))
    ensures Correct(g)
  {
    StepKeepsInv(f.s, v, Advance);
    JobsAfter(f.s, v, Advance);
    assert VpOk(f.s.jobs, v, f.s.vps[v]) && VpMatches(f, f.s.vps[v]);
    AdvanceStack(f.s, v);
    forall w: nat | w < |g.s.vps|
      ensures VpMatches(g, g.s.vps[w])
    {
      assert VpMatches(f, f.s.vps[w]);
      if w != v {
        OtherVp(f.s, v, Advance, w);
        SameStack(f, g, f.s.vps[w].frames);
      } else {
        SilentStack(f, g, v);
      }
    }
    forall i | i in g.locals
      ensures LocalOk(g.s.jobs, g.locals, i, g.locals[i])
    {
      assert LocalOk(f.s.jobs, f.locals, i, f.locals[i]);
      LocalFrame(f, g, i, f.locals[i]);
    }
  }

  lemma SameStack(f: Program, g: Program, frames: seq<Frame>)
    requires StackMatches(f, frames) && g.locals == f.locals && g.main == f.main && g.root == f.root
    ensures StackMatches(g, frames)
  {
    StackFrame(f, g, frames);
  }

  lemma SilentStack(f: Program, g: Program, v: nat)
    requires v < |f.s.vps| == |g.s.vps| && VpMatches(f, f.s.vps[v])
    requires g.locals == f.locals && g.main == f.main && g.root == f.root
    requires StackStep(f.s.vps[v].frames, g.s.vps[v].frames) && !g.s.vps[v].pc.Returned?
    requires |g.s.vps[v].frames| > |f.s.vps[v].frames| ==> Last(g.s.vps[v].frames).Body?
    ensures VpMatches(g, g.s.vps[v])
  {
    var fs, fs' := f.s.vps[v].frames, g.s.vps[v].frames;
    SameStack(f, g, fs);
    if |fs'| == |fs| + 1 {
      assert fs' == fs + [Last(fs')];
      if fs != [] {
        StackPush(g, fs, Last(fs'));
      }
    } else if fs != [] && fs' == Pop(fs) {
      StackPop(g, fs);
    }
  }

  /** The frame whose code called the join on top of `p`. */
  function Caller(p: Vp): Frame
    requires |p.frames| >= 2
  {
    p.frames[|p.frames| - 2]
  }

  /** The return of a join, in terms of its caller. */
  lemma JoinReturnDo(f: Program, g: Program, v: nat)
    requires v < |f.s.vps| && ReturnsFromJoin(f.s, f.s.vps[v])
    requires Allowed(f, v, Sched(Advance)) && g == Do(f, v, Sched(Advance))
    ensures var p := f.s.vps[v];
            g.s == f.s.(vps := f.s.vps[v := p.(frames := Pop(p.frames), pc := User)])
    ensures match Caller(f.s.vps[v])
            case MainCode => g == f.(s := g.s, main := RootJoined)
            case Joining(_) => g == f.(s := g.s)
            case Body(j, _) => j in f.locals ==>
              g == f.(s := g.s, locals := MoveTo(f.locals, j,
                                                 if f.locals[j].at.JoiningRight? then RightJoined else LeftJoined))
  {
  }

  /** The caller was at that join. */
  lemma CallerAtJoin(f: Program, v: nat)
    requires v < |f.s.vps| && VpOk(f.s.jobs, v, f.s.vps[v]) && VpMatches(f, f.s.vps[v])
    requires ReturnsFromJoin(f.s, f.s.vps[v])
    ensures !Caller(f.s.vps[v]).Joining?
    ensures JoinMatches(f, Caller(f.s.vps[v]), Last(f.s.vps[v].frames).target)
  {
    var frames := f.s.vps[v].frames;
    assert FrameFits(v, frames, |frames| - 1);
    assert frames[|frames| - 1].Joining?;
  }

  lemma CallerUnfinished(s: State, v: nat)
    requires Inv(s) && v < |s.vps| && |s.vps[v].frames| >= 2 && Caller(s.vps[v]).Body?
    ensures !IsFinished(s.jobs, Caller(s.vps[v]).job)
  {
    FrameHasJob(s, v, |s.vps[v].frames| - 2);
    assert PlaceOk(s.vps, Caller(s.vps[v]).job, s.jobs[Caller(s.vps[v]).job]);
  }

  /** The target is Finished, so the caller's code may go on. */
  lemma CallerMoves(f: Program, g: Program, v: nat)
    requires v < |f.s.vps| && ReturnsFromJoin(f.s, f.s.vps[v])
    requires LocalsOk(f) && MainOk(f) && f.locals.Keys == f.s.jobs.Keys
    requires Allowed(f, v, Sched(Advance)) && g == Do(f, v, Sched(Advance))
    requires JoinMatches(f, Caller(f.s.vps[v]), Last(f.s.vps[v].frames).target)
    requires Caller(f.s.vps[v]).Body? ==> !IsFinished(f.s.jobs, Caller(f.s.vps[v]).job)
    ensures LocalsOk(g) && MainOk(g) && g.locals.Keys == g.s.jobs.Keys
    ensures Confined(f, g, v, |f.s.vps[v].frames| - 2)
  {
    JoinReturnDo(f, g, v);
    var x := Caller(f.s.vps[v]);
    forall c | c in g.locals
      ensures LocalOk(g.s.jobs, g.locals, c, g.locals[c])
    {
      assert LocalOk(f.s.jobs, f.locals, c, f.locals[c]);
    }
  }

  lemma JoinReturnStack(f: Program, g: Program, v: nat)
    requires Inv(f.s) && v < |f.s.vps| && ReturnsFromJoin(f.s, f.s.vps[v])
    requires StackMatches(f, f.s.vps[v].frames) && !Caller(f.s.vps[v]).Joining?
    requires Confined(f, g, v, |f.s.vps[v].frames| - 2)
    requires v < |g.s.vps| && g.s.vps[v].frames == Pop(f.s.vps[v].frames) && g.s.vps[v].pc.User?
    ensures VpMatches(g, g.s.vps[v])
  {
    var frames := f.s.vps[v].frames;
    var i := |frames| - 2;
    assert frames[..i + 1] == Pop(frames);
    StackPop(f, frames);
    ConfinedKeepsCallers(f, g, v, i, v, Pop(frames));
    StackFrame(f, g, Pop(frames));
  }

  lemma CallerReady(f: Program, v: nat)
    requires Correct(f) && v < |f.s.vps| && ReturnsFromJoin(f.s, f.s.vps[v])
    ensures !Caller(f.s.vps[v]).Joining?
    ensures JoinMatches(f, Caller(f.s.vps[v]), Last(f.s.vps[v].frames).target)
    ensures Caller(f.s.vps[v]).Body? ==> !IsFinished(f.s.jobs, Caller(f.s.vps[v]).job)
  {
    assert VpOk(f.s.jobs, v, f.s.vps[v]) && VpMatches(f, f.s.vps[v]);
    CallerAtJoin(f, v);
    if Caller(f.s.vps[v]).Body? {
      CallerUnfinished(f.s, v);
    }
  }

  /** The return of a join moves only its caller. */
  lemma JoinReturnEvent(f: Program, v: nat)
    requires Correct(f) && v < |f.s.vps| && ReturnsFromJoin(f.s, f.s.vps[v])
    requires Allowed(f, v, Sched(Advance))
    ensures Correct(Do(f, v, Sched(Advance)))
  {
    var g := Do(f, v, Sched(Advance));
    CallerReady(f, v);
    CallerMoves(f, g, v);
    JoinReturnVps(f, g, v);
    assert Inv(g.s) by {
      StepKeepsInv(f.s, v, Advance);
      DoIsApply(f, v, Advance);
    }
  }

  lemma JoinReturnVps(f: Program, g: Program, v: nat)
    requires Inv(f.s) && VpsMatch(f) && v < |f.s.vps| && ReturnsFromJoin(f.s, f.s.vps[v])
    requires !Caller(f.s.vps[v]).Joining? && Confined(f, g, v, |f.s.vps[v].frames| - 2)
    requires Allowed(f, v, Sched(Advance)) && g == Do(f, v, Sched(Advance))
    ensures VpsMatch(g)
  {
    JoinReturnDo(f, g, v);
    assert VpMatches(f, f.s.vps[v]);
    OthersMatch(f, g, v, |f.s.vps[v].frames| - 2, Advance);
    JoinReturnStack(f, g, v);
  }

  // ---------------------------------------------------------------- runs of the program

  lemma EventKeepsCorrect(f: Program, v: nat, e: Event)
    requires Correct(f) && v < |f.s.vps| && Allowed(f, v, e)
    ensures Correct(Do(f, v, e))
  {
    match e
    case WriteSum => WriteEvent(f, v);
    case Sched(a) =>
      match a
      case Fork(child) => ForkEvent(f, v, child);
      case CallJoin(t) => CallJoinEvent(f, v, t);
      case Return => ReturnEvent(f, v);
      case Terminate => TerminateEvent(f, v);
      case Advance =>
        if ReturnsFromJoin(f.s, f.s.vps[v]) {
          JoinReturnEvent(f, v);
        } else {
          SilentEvent(f, Do(f, v, e), v);
        }
  }

  ghost predicate Next(f: Program, g: Program)
  {
    exists v: nat, e: Event :: v < |f.s.vps| && Allowed(f, v, e) && g == Do(f, v, e)
  }

  /** A run of `fibonacci n` on `vps` VPs. */
  ghost predicate IsFibRun(vps: nat, n: int, run: seq<Program>)
  {
    && vps >= 1 && run != []
    && run[0].s == Initial(vps) && run[0].n == n && run[0].main.MainBegin? && run[0].locals == map[]
    && forall i :: 0 <= i < |run| - 1 ==> Next(run[i], run[i + 1])
  }

  lemma {:induction false} InitialMatches(f: Program, vps: nat)
    requires vps >= 1 && f.s == Initial(vps) && f.main.MainBegin? && f.locals == map[]
    ensures Correct(f)
  {
    InitialInv(vps);
  }

  lemma NextCorrect(f: Program, g: Program)
    requires Correct(f) && Next(f, g)
    ensures Correct(g) && g.n == f.n
  {
    var v: nat, e: Event :| v < |f.s.vps| && Allowed(f, v, e) && g == Do(f, v, e);
    EventKeepsCorrect(f, v, e);
  }

  lemma {:induction false} RunCorrect(vps: nat, n: int, run: seq<Program>)
    requires IsFibRun(vps, n, run)
    ensures Correct(Last(run)) && Last(run).n == n
    decreases |run|
  {
    if |run| == 1 {
      InitialMatches(run[0], vps);
    } else {
      var before := Pop(run);
      forall i | 0 <= i < |before| - 1
        ensures Next(before[i], before[i + 1])
      {
        assert Next(run[i], run[i + 1]);
      }
      RunCorrect(vps, n, before);
      assert Next(run[|run| - 2], run[|run| - 1]);
      NextCorrect(Last(before), Last(run));
    }
  }

  /** Schedule independence: in every run on every number of VPs, once the main program's
      join has returned, its cell holds Fib of the number it started from. */
  lemma JoinYieldsFib(vps: nat, n: int, run: seq<Program>)
    requires IsFibRun(vps, n, run) && (Last(run).main.RootJoined? || Last(run).main.Ended?)
    ensures Last(run).root in Last(run).locals && Last(run).locals[Last(run).root].cell == Fib(n)
  {
    RunCorrect(vps, n, run);
    var f := Last(run);
    assert LocalOk(f.s.jobs, f.locals, f.root, f.locals[f.root]);
  }

  /** Each cell is written by its own job only, and a parent reads the cells of its children
      after both are Finished. */
  lemma CellsAreWrittenByTheirJob(f: Program, v: nat, e: Event, c: JobId)
    requires Correct(f) && v < |f.s.vps| && Allowed(f, v, e) && c in f.locals
    ensures c in Do(f, v, e).locals
    ensures Do(f, v, e).locals[c].cell != f.locals[c].cell ==>
              && e.WriteSum? && JobOf(Last(f.s.vps[v].frames)) == Some(c)
              && f.locals[c].at.LeftJoined? && Do(f, v, e).locals[c].at.Written?
              && IsFinished(f.s.jobs, f.locals[c].left) && IsFinished(f.s.jobs, f.locals[c].right)
  {
    if e.WriteSum? {
      assert LocalOk(f.s.jobs, f.locals, c, f.locals[c]);
    } else {
      SchedKeepsCells(f, v, e.a, c);
    }
  }

  lemma SchedKeepsCells(f: Program, v: nat, a: Action, c: JobId)
    requires f.locals.Keys == f.s.jobs.Keys && v < |f.s.vps| && Allowed(f, v, Sched(a)) && c in f.locals
    ensures c in Do(f, v, Sched(a)).locals && Do(f, v, Sched(a)).locals[c].cell == f.locals[c].cell
  {
  }

  /** How far a program point is. */
  function Rank(at: At): nat
  {
    match at
    case Begin => 0
    case LeftForked => 1
    case BothForked => 2
    case JoiningRight => 3
    case RightJoined => 4
    case JoiningLeft => 5
    case LeftJoined => 6
    case Written => 7
    case Done => 8
  }

  /** The calls of par_fib: a job that has forked once has its left child, for the argument less
      one, and one that has forked twice also its right child, for the argument less two; it joins
      the right one first. */
  lemma CallsAsWritten(vps: nat, n: int, run: seq<Program>, j: JobId)
    requires IsFibRun(vps, n, run) && j in Last(run).locals && 1 <= Rank(Last(run).locals[j].at) <= 6
    ensures var f := Last(run);
            var l := f.locals[j];
            && l.arg >= 2 && l.left in f.s.jobs && l.left in f.locals
            && f.locals[l.left].arg == l.arg - 1 && f.s.jobs[l.left].forker == Some(j)
            && (Rank(l.at) >= 2 ==>
                  && l.right in f.s.jobs && l.right in f.locals
                  && f.locals[l.right].arg == l.arg - 2 && f.s.jobs[l.right].forker == Some(j))
            && (Rank(l.at) >= 4 ==> IsFinished(f.s.jobs, l.right))
            && (Rank(l.at) == 6 ==> IsFinished(f.s.jobs, l.left))
  {
    RunCorrect(vps, n, run);
    var f := Last(run);
    assert LocalOk(f.s.jobs, f.locals, j, f.locals[j]);
  }

  /** A pending join of job j is for its right child, or, once that is Finished, for the left. */
  lemma JoinsAsWritten(vps: nat, n: int, run: seq<Program>, v: nat, i: nat)
    requires IsFibRun(vps, n, run) && v < |Last(run).s.vps| && 0 < i < |Last(run).s.vps[v].frames|
    requires Last(run).s.vps[v].frames[i].Joining? && Last(run).s.vps[v].frames[i - 1].Body?
    ensures var f, t, j := Last(run), Last(run).s.vps[v].frames[i].target, Last(run).s.vps[v].frames[i - 1].job;
            && j in f.locals && 1 <= Rank(f.locals[j].at) <= 6
            && (t == f.locals[j].right || (t == f.locals[j].left && IsFinished(f.s.jobs, f.locals[j].right)))
  {
    RunCorrect(vps, n, run);
    var f := Last(run);
    var frames := f.s.vps[v].frames;
    assert VpMatches(f, f.s.vps[v]);
    assert JoinMatches(f, frames[i - 1], frames[i].target);
    var j := frames[i - 1].job;
    assert LocalOk(f.s.jobs, f.locals, j, f.locals[j]);
  }

  /** No job goes back, and a cell changes only on the way from LeftJoined to Written. */
  lemma OnlyForward(f: Program, g: Program, c: JobId)
    requires Correct(f) && Next(f, g) && c in f.locals
    ensures c in g.locals && Rank(f.locals[c].at) <= Rank(g.locals[c].at)
    ensures g.locals[c].cell != f.locals[c].cell ==> Rank(f.locals[c].at) == 6 && Rank(g.locals[c].at) == 7
  {
    var v: nat, e: Event :| v < |f.s.vps| && Allowed(f, v, e) && g == Do(f, v, e);
    CellsAreWrittenByTheirJob(f, v, e, c);
    if e == Sched(Advance) {
      if ReturnsFromJoin(f.s, f.s.vps[v]) {
        CallerReady(f, v);
        JoinReturnDo(f, g, v);
      }
    } else {
      UserMovesForward(f, v, e, c);
    }
  }

  lemma UserMovesForward(f: Program, v: nat, e: Event, c: JobId)
    requires f.locals.Keys == f.s.jobs.Keys && v < |f.s.vps| && Allowed(f, v, e) && e != Sched(Advance) && c in f.locals
    ensures c in Do(f, v, e).locals && Rank(f.locals[c].at) <= Rank(Do(f, v, e).locals[c].at)
  {
  }

  lemma {:induction false} ForwardOnPath(run: seq<Program>, i: nat, k: nat, c: JobId)
    requires i <= k < |run| && Correct(run[i]) && c in run[i].locals
    requires forall j :: 0 <= j < |run| - 1 ==> Next(run[j], run[j + 1])
    ensures Correct(run[k]) && c in run[k].locals && Rank(run[i].locals[c].at) <= Rank(run[k].locals[c].at)
    decreases k - i
  {
    hide Correct, Next, Rank;
    if i < k {
      assert Next(run[i], run[i + 1]);
      OnlyForward(run[i], run[i + 1], c);
      NextCorrect(run[i], run[i + 1]);
      ForwardOnPath(run, i + 1, k, c);
    }
  }

  /** Over a whole run a cell changes at most once. */
  lemma CellsAreWrittenOnce(vps: nat, n: int, run: seq<Program>, c: JobId, i: nat, k: nat)
    requires IsFibRun(vps, n, run) && i < k < |run| - 1
    requires c in run[i].locals && c in run[i + 1].locals && run[i + 1].locals[c].cell != run[i].locals[c].cell
    ensures c in run[k].locals && c in run[k + 1].locals && run[k + 1].locals[c].cell == run[k].locals[c].cell
  {
    PrefixIsFibRun(vps, n, run, i);
    RunCorrect(vps, n, run[..i + 1]);
    assert Last(run[..i + 1]) == run[i];
    assert Next(run[i], run[i + 1]) && Next(run[k], run[k + 1]);
    OnlyForward(run[i], run[i + 1], c);
    NextCorrect(run[i], run[i + 1]);
    ForwardOnPath(run, i + 1, k, c);
    OnlyForward(run[k], run[k + 1], c);
  }

  lemma PrefixIsFibRun(vps: nat, n: int, run: seq<Program>, i: nat)
    requires IsFibRun(vps, n, run) && i < |run|
    ensures IsFibRun(vps, n, run[..i + 1])
  {
    var before := run[..i + 1];
    forall j | 0 <= j < |before| - 1
      ensures Next(before[j], before[j + 1])
    {
      assert Next(run[j], run[j + 1]);
    }
  }

  /** A run of the program is a run of the scheduler. */
  lemma {:induction false} FibRunReachable(vps: nat, n: int, run: seq<Program>)
    requires IsFibRun(vps, n, run)
    ensures Reachable(vps, Last(run).s)
    decreases |run|
  {
    if |run| == 1 {
      assert IsRun(vps, [Initial(vps)]) && Last([Initial(vps)]) == run[0].s;
    } else {
      var before := Pop(run);
      forall i | 0 <= i < |before| - 1
        ensures Next(before[i], before[i + 1])
      {
        assert Next(run[i], run[i + 1]);
      }
      FibRunReachable(vps, n, before);
      assert Next(run[|run| - 2], run[|run| - 1]);
      NextReachable(vps, Last(before), Last(run));
    }
  }

  lemma NextReachable(vps: nat, f: Program, g: Program)
    requires Reachable(vps, f.s) && Next(f, g)
    ensures Reachable(vps, g.s)
  {
    var v: nat, e: Event :| v < |f.s.vps| && Allowed(f, v, e) && g == Do(f, v, e);
    if e.Sched? {
      Then(vps, f.s, v, e.a);
      DoIsApply(f, v, e.a);
    }
  }

  lemma DoIsApply(f: Program, v: nat, a: Action)
    requires v < |f.s.vps| && Allowed(f, v, Sched(a))
    ensures Do(f, v, Sched(a)).s == Apply(f.s, v, a)
  {
  }

  /** par_fib joins its own children only, whether they run inline or not. */
  lemma FibJoinsItsChildren(f: Program, v: nat, i: nat)
    requires Correct(f) && v < |f.s.vps| && i < |f.s.vps[v].frames| && f.s.vps[v].frames[i].Joining?
    ensures 0 < i && OwnJoin(f.s.jobs, f.s.vps[v].frames[i - 1], f.s.vps[v].frames[i].target)
  {
    var frames := f.s.vps[v].frames;
    assert VpOk(f.s.jobs, v, f.s.vps[v]) && FrameFits(v, frames, i);
    assert VpMatches(f, f.s.vps[v]);
    assert JoinMatches(f, frames[i - 1], frames[i].target);
    if frames[i - 1].Body? {
      assert LocalOk(f.s.jobs, f.locals, frames[i - 1].job, f.locals[frames[i - 1].job]);
    }
  }

  /** So its joins are strict exactly as long as none for an inlined job is pending. */
  lemma FibJoinsAreStrictIff(f: Program)
    requires Correct(f)
    ensures StrictJoins(f.s) <==> !InlinedJoinPending(f.s)
  {
    if InlinedJoinPending(f.s) {
      var v: nat, i: nat :| v < |f.s.vps| && i < |f.s.vps[v].frames| && HangsAt(f.s, v, i);
      FibJoinsItsChildren(f, v, i);
      assert !StrictJoin(f.s.jobs, f.s.vps[v].frames[i - 1], f.s.vps[v].frames[i].target);
    } else {
      forall v, i | 0 <= v < |f.s.vps| && 0 < i < |f.s.vps[v].frames| && f.s.vps[v].frames[i].Joining?
        ensures StrictJoin(f.s.jobs, f.s.vps[v].frames[i - 1], f.s.vps[v].frames[i].target)
      {
        FibJoinsItsChildren(f, v, i);
        assert !HangsAt(f.s, v, i);
      }
    }
  }

  /** Then it does not deadlock: while a listed job is unfinished, some VP reaches a useful action
      on its own. */
  lemma FibMakesProgress(vps: nat, n: int, run: seq<Program>, j: JobId) returns (v: nat, k: nat)
    requires IsFibRun(vps, n, run) && !InlinedJoinPending(Last(run).s)
    requires j in Last(run).s.jobs && !Last(run).s.jobs[j].inlined && Last(run).s.jobs[j].state != Finished
    ensures v < vps && k <= vps + 2 && Productive(Solo(Last(run).s, v, k), v)
  {
    RunCorrect(vps, n, run);
    FibRunReachable(vps, n, run);
    FibJoinsAreStrictIff(Last(run));
    StrictIsAcyclic(Last(run).s);
    v, k := NoDeadlock(vps, Last(run).s, j);
  }
}
