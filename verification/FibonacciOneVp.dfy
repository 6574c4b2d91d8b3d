/** par_fib on one VP: its list is a stack of the children that the code on its call stack has
    forked and not joined yet, so every join runs the very job it waits for.  Hence the call
    stack is a path of the call tree, and its depth is known from the argument. */
module FibonacciOneVp {
  import opened Options
  import opened HeapOrder
  import opened Scheduler
  import opened SchedulerInvariant
  import opened SchedulerResults
  import opened SchedulerWaiting
  import opened SchedulerProgress
  import opened F = Fibonacci
  import opened FibonacciBound
  import opened FibonacciReady
  import opened FibonacciDescent

  // ---------------------------------------------------------------- the children in the list

  ghost predicate IsListed(jobs: map<JobId, Job>, c: JobId)
  {
    c in jobs && jobs[c].place.Listed?
  }

  ghost function IfListed(jobs: map<JobId, Job>, c: JobId): seq<JobId>
  {
    if IsListed(jobs, c) then [c] else []
  }

  predicate HasLeft(at: At)
  {
    !at.Begin? && !at.Written? && !at.Done?
  }

  predicate HasRight(at: At)
  {
    HasLeft(at) && !at.LeftForked?
  }

  /** The children that the code of a frame has forked and that are still in the list. */
  ghost function ChildrenOf(f: Program, x: Frame): seq<JobId>
  {
    match x
    case MainCode => if f.main.MainBegin? then [] else IfListed(f.s.jobs, f.root)
    case Body(j, _) =>
      if j !in f.locals then []
      else
        var l := f.locals[j];
        (if HasLeft(l.at) then IfListed(f.s.jobs, l.left) else [])
        + (if HasRight(l.at) then IfListed(f.s.jobs, l.right) else [])
    case Joining(_) => []
  }

  ghost function Waiting(f: Program, frames: seq<Frame>): seq<JobId>
  {
    if frames == [] then [] else Waiting(f, Pop(frames)) + ChildrenOf(f, Last(frames))
  }

  function Jobs(list: seq<Entry<JobId>>): (js: seq<JobId>)
    ensures |js| == |list|
  {
    seq(|list|, i requires 0 <= i < |list| => list[i].job)
  }

  /** The job above a join is the one that is joined. */
  ghost predicate Nested(frames: seq<Frame>)
  {
    forall i :: 0 < i < |frames| && frames[i].Body? ==> frames[i - 1] == Joining(frames[i].job)
  }

  ghost predicate StackIsPath(f: Program, p: Vp)
  {
    && p.frames != [] && p.frames[0].MainCode? && Nested(p.frames)
    && Jobs(p.list) == Waiting(f, p.frames)
    && !p.pc.AtSteal? && !p.pc.Stolen? && !p.pc.AtCount? && !p.pc.Exited?
    && (p.pc.AtPop? ==> Last(p.frames).Joining? && IsListed(f.s.jobs, Last(p.frames).target))
    && (InHand(p.pc).Some? ==> Last(p.frames) == Joining(InHand(p.pc).value))
  }

  ghost predicate Lifo(f: Program)
  {
    && |f.s.vps| == 1 && Uninlined(f.s)
    && var p := f.s.vps[0];
       if p.frames != [] then StackIsPath(f, p) else p.list == [] && InHand(p.pc) == None
  }

  // ---------------------------------------------------------------- frames

  /** The code of frame x has neither forked nor joined. */
  ghost predicate Unmoved(f: Program, g: Program, x: Frame)
  {
    match x
    case MainCode => f.main.MainBegin? == g.main.MainBegin? && f.root == g.root
    case Body(j, _) =>
      && (j in f.locals <==> j in g.locals)
      && (j in f.locals ==>
            var l, l' := f.locals[j], g.locals[j];
            && HasLeft(l.at) == HasLeft(l'.at) && HasRight(l.at) == HasRight(l'.at)
            && l.left == l'.left && l.right == l'.right)
    case Joining(_) => true
  }

  /** Job c is not a child of the code of frame x. */
  ghost predicate NotChild(f: Program, x: Frame, c: JobId)
  {
    match x
    case MainCode => f.main.MainBegin? || f.root != c
    case Body(j, _) =>
      j in f.locals ==>
        && (HasLeft(f.locals[j].at) ==> f.locals[j].left != c)
        && (HasRight(f.locals[j].at) ==> f.locals[j].right != c)
    case Joining(_) => true
  }

  ghost predicate ListedBut(f: Program, g: Program, c: JobId)
  {
    forall d {:trigger IsListed(g.s.jobs, d)} :: d != c ==> (IsListed(f.s.jobs, d) <==> IsListed(g.s.jobs, d))
  }

  lemma ChildrenFrame(f: Program, g: Program, x: Frame, c: JobId)
    requires Unmoved(f, g, x) && ListedBut(f, g, c)
    requires NotChild(f, x, c) || (IsListed(f.s.jobs, c) <==> IsListed(g.s.jobs, c))
    ensures ChildrenOf(g, x) == ChildrenOf(f, x)
  {
  }

  lemma {:induction false} WaitingFrame(f: Program, g: Program, frames: seq<Frame>, c: JobId)
    requires ListedBut(f, g, c)
    requires forall x :: x in frames ==> Unmoved(f, g, x)
    requires (IsListed(f.s.jobs, c) <==> IsListed(g.s.jobs, c)) || forall x :: x in frames ==> NotChild(f, x, c)
    ensures Waiting(g, frames) == Waiting(f, frames)
    decreases |frames|
  {
    if frames != [] {
      assert forall x :: x in Pop(frames) ==> x in frames;
      WaitingFrame(f, g, Pop(frames), c);
      assert Last(frames) in frames;
      ChildrenFrame(f, g, Last(frames), c);
    }
  }

  lemma JobsOfPop(list: seq<Entry<JobId>>)
    requires list != []
    ensures Jobs(Pop(list)) == Pop(Jobs(list)) && Last(Jobs(list)) == Last(list).job
  {
  }

  lemma JobsOfPush(list: seq<Entry<JobId>>, e: Entry<JobId>)
    ensures Jobs(list + [e]) == Jobs(list) + [e.job]
  {
  }

  /** The other frames of the stack are not about the job on top, nor about the main program
      if that is on top. */
  lemma TopIsElsewhere(f: Program, x: Frame)
    requires Inv(f.s) && |f.s.vps| == 1 && f.s.vps[0].frames != [] && x in Pop(f.s.vps[0].frames)
    ensures var top := Last(f.s.vps[0].frames);
            && (top.Body? && x.Body? ==> x.job != top.job) && !(top.MainCode? && x.MainCode?)
            && (x.Body? ==> x.job in f.s.jobs)
  {
    var frames := f.s.vps[0].frames;
    var i :| 0 <= i < |frames| - 1 && frames[i] == x;
    if x.Body? {
      FrameHasJob(f.s, 0, i);
    }
    if Last(frames).Body? && x.Body? && x.job == Last(frames).job {
      BodyUnique(f.s, 0, i, 0, |frames| - 1);
    }
    if Last(frames).MainCode? {
      MainAtBottom(f.s, 0, |frames| - 1);
    }
  }

  // ---------------------------------------------------------------- forking

  /** Children are jobs. */
  lemma NoChildYet(f: Program, x: Frame, c: JobId)
    requires Correct(f) && c !in f.s.jobs
    ensures NotChild(f, x, c)
  {
    if x.Body? && x.job in f.locals {
      assert LocalOk(f.s.jobs, f.locals, x.job, f.locals[x.job]);
    }
  }

  lemma ForkedChildren(f: Program, g: Program, child: JobId)
    requires Correct(f) && |f.s.vps| == 1 && Allowed(f, 0, Sched(Fork(child))) && g == Do(f, 0, Sched(Fork(child)))
    requires |f.s.vps[0].context| <= INLINE_DEPTH
    ensures ListedBut(f, g, child)
    ensures forall x :: x in Pop(f.s.vps[0].frames) ==> Unmoved(f, g, x)
    ensures ChildrenOf(g, Last(f.s.vps[0].frames)) == ChildrenOf(f, Last(f.s.vps[0].frames)) + [child]
  {
    TopLocal(f, 0);
    ForkShape(f, g, 0, child);
    assert IsListed(g.s.jobs, child);
    assert g.s.jobs == f.s.jobs[child := g.s.jobs[child]];
    var top := Last(f.s.vps[0].frames);
    if top.Body? {
      assert g.locals[top.job] == AfterFork(f.locals[top.job], child);
    } else {
      assert g.root == child;
    }
    hide DoFork;
    forall x | x in Pop(f.s.vps[0].frames)
      ensures Unmoved(f, g, x)
    {
      TopIsElsewhere(f, x);
    }
  }

  lemma ForkLifo(f: Program, child: JobId)
    requires Correct(f) && Reachable(1, f.s) && Lifo(f) && Allowed(f, 0, Sched(Fork(child)))
    requires |f.s.vps[0].context| <= INLINE_DEPTH
    ensures Lifo(Do(f, 0, Sched(Fork(child))))
  {
    var g := Do(f, 0, Sched(Fork(child)));
    var p := f.s.vps[0];
    ForkedChildren(f, g, child);
    ForkAppends(1, f.s, 0, child);
    DoIsApply(f, 0, Fork(child));
    forall x | x in Pop(p.frames)
      ensures NotChild(f, x, child)
    {
      NoChildYet(f, x, child);
    }
    WaitingFrame(f, g, Pop(p.frames), child);
    JobsOfPush(p.list, Entry(p.counter, child));
    assert g.s.vps[0] == p.(list := p.list + [Entry(p.counter, child)], counter := p.counter + 1);
    StepUninlined(f.s, 0, Fork(child));
    hide ChildrenOf, Do, Allowed;
  }

  // ---------------------------------------------------------------- joining and returning

  lemma FinishedIsUnlisted(s: State, c: JobId)
    requires Inv(s) && IsFinished(s.jobs, c)
    ensures !IsListed(s.jobs, c)
  {
    assert PlaceOk(s.vps, c, s.jobs[c]);
  }

  lemma JoinHasNoChildren(f: Program, t: JobId)
    ensures ChildrenOf(f, Joining(t)) == []
  {
  }

  lemma LastHasNone(f: Program, frames: seq<Frame>)
    requires frames != [] && ChildrenOf(f, Last(frames)) == []
    ensures Waiting(f, Pop(frames)) == Waiting(f, frames)
  {
  }

  lemma CallJoinMoves(f: Program, g: Program, t: JobId)
    requires Correct(f) && Lifo(f) && Allowed(f, 0, Sched(CallJoin(t))) && g == Do(f, 0, Sched(CallJoin(t)))
    ensures var p := f.s.vps[0];
            g.s == f.s.(vps := [p.(frames := p.frames + [Joining(t)], pc := AtCheck)])
    ensures forall x :: x in f.s.vps[0].frames ==> Unmoved(f, g, x)
  {
    hide Waiting, Jobs, Nested;
    var frames := f.s.vps[0].frames;
    TopLocal(f, 0);
    forall x | x in frames
      ensures Unmoved(f, g, x)
    {
      if x != Last(frames) {
        var i :| 0 <= i < |frames| && frames[i] == x;
        assert x == Pop(frames)[i];
        TopIsElsewhere(f, x);
      }
    }
  }

  lemma CallJoinLifo(f: Program, t: JobId)
    requires Correct(f) && Lifo(f) && Allowed(f, 0, Sched(CallJoin(t)))
    ensures Lifo(Do(f, 0, Sched(CallJoin(t))))
  {
    hide Do, Unmoved, Correct, ChildrenOf, Waiting;
    var g := Do(f, 0, Sched(CallJoin(t)));
    var frames := f.s.vps[0].frames;
    CallJoinMoves(f, g, t);
    WaitingFrame(f, g, frames, 0);
    JoinHasNoChildren(g, t);
    LastHasNone(g, frames + [Joining(t)]);
    assert Pop(frames + [Joining(t)]) == frames;
  }

  /** The top frame ends up without children in the list, as it was. */
  lemma TopWithoutChildren(f: Program, g: Program)
    requires Correct(f) && |f.s.vps| == 1 && f.s.vps[0].frames != [] && g.s.jobs == f.s.jobs
    requires Last(f.s.vps[0].frames).Body? && Last(f.s.vps[0].frames).job in f.locals
    requires g.main == f.main && g.root == f.root
    requires var j := Last(f.s.vps[0].frames).job; j in g.locals && g.locals == f.locals[j := g.locals[j]]
    requires ChildrenOf(f, Last(f.s.vps[0].frames)) == [] == ChildrenOf(g, Last(f.s.vps[0].frames))
    ensures Waiting(g, f.s.vps[0].frames) == Waiting(f, f.s.vps[0].frames)
  {
    var frames := f.s.vps[0].frames;
    forall x | x in Pop(frames)
      ensures Unmoved(f, g, x)
    {
      TopIsElsewhere(f, x);
    }
    WaitingFrame(f, g, Pop(frames), 0);
  }

  lemma ReturnLifo(f: Program)
    requires Correct(f) && Lifo(f) && Allowed(f, 0, Sched(Return))
    ensures Lifo(Do(f, 0, Sched(Return)))
  {
    var g := Do(f, 0, Sched(Return));
    TopWithoutChildren(f, g);
  }

  lemma WriteLifo(f: Program)
    requires Correct(f) && Lifo(f) && Allowed(f, 0, WriteSum)
    ensures Lifo(Do(f, 0, WriteSum))
  {
    var g := Do(f, 0, WriteSum);
    var j := Last(f.s.vps[0].frames).job;
    assert LocalOk(f.s.jobs, f.locals, j, f.locals[j]);
    FinishedIsUnlisted(f.s, f.locals[j].left);
    FinishedIsUnlisted(f.s, f.locals[j].right);
    TopWithoutChildren(f, g);
  }

  lemma TerminateLifo(f: Program)
    requires Correct(f) && Lifo(f) && Allowed(f, 0, Sched(Terminate))
    ensures Lifo(Do(f, 0, Sched(Terminate)))
  {
    FinishedIsUnlisted(f.s, f.root);
    assert Waiting(f, [MainCode]) == Waiting(f, []) + ChildrenOf(f, MainCode);
  }

  // ---------------------------------------------------------------- running a child

  /** An action that neither lists a job nor takes one from the list keeps what waits. */
  lemma SameWaiting(f: Program, g: Program, frames: seq<Frame>)
    requires g.locals == f.locals && g.main == f.main && g.root == f.root
    requires ListedBut(f, g, 0) && (IsListed(f.s.jobs, 0) <==> IsListed(g.s.jobs, 0))
    ensures Waiting(g, frames) == Waiting(f, frames)
  {
    WaitingFrame(f, g, frames, 0);
  }

  /** The end of a job's function. */
  lemma FinishLifo(f: Program)
    requires Correct(f) && Lifo(f) && f.s.vps[0].pc.Returned?
    ensures Lifo(f.(s := DoAdvance(f.s, 0)))
  {
    hide Waiting, Jobs;
    var g := f.(s := DoAdvance(f.s, 0));
    var frames := f.s.vps[0].frames;
    FinishUnlists(f, g);
    SameWaiting(f, g, frames);
    LastHasNone(g, frames);
    assert frames[0] == Pop(frames)[0];
  }

  lemma FinishUnlists(f: Program, g: Program)
    requires Correct(f) && Lifo(f) && f.s.vps[0].pc.Returned? && g == f.(s := DoAdvance(f.s, 0))
    ensures ListedBut(f, g, 0) && (IsListed(f.s.jobs, 0) <==> IsListed(g.s.jobs, 0))
    ensures Uninlined(g.s)
    ensures var p := f.s.vps[0];
            && |p.frames| >= 2 && Last(p.frames).Body? && Last(Pop(p.frames)).Joining?
            && ChildrenOf(g, Last(p.frames)) == []
            && g.s.vps == [g.s.vps[0]] && g.s.vps[0].list == p.list
            && g.s.vps[0].frames == Pop(p.frames) && g.s.vps[0].pc.AtCheck?
  {
    hide Waiting, Jobs;
    var frames := f.s.vps[0].frames;
    assert VpOk(f.s.jobs, 0, f.s.vps[0]) && VpMatches(f, f.s.vps[0]);
    assert Last(frames) in frames && FrameOk(f.s.jobs, 0, Last(frames));
  }

  lemma JoinReturnMoves(f: Program, g: Program)
    requires Correct(f) && Lifo(f) && ReturnsFromJoin(f.s, f.s.vps[0])
    requires Allowed(f, 0, Sched(Advance)) && g == Do(f, 0, Sched(Advance))
    ensures g.s == f.s.(vps := [f.s.vps[0].(frames := Pop(f.s.vps[0].frames), pc := User)])
    ensures forall x :: x in Pop(f.s.vps[0].frames) ==> Unmoved(f, g, x)
  {
    CallerReady(f, 0);
    JoinReturnDo(f, g, 0);
  }

  lemma JoinReturnLifo(f: Program)
    requires Correct(f) && Lifo(f) && ReturnsFromJoin(f.s, f.s.vps[0])
    requires Allowed(f, 0, Sched(Advance))
    ensures Lifo(Do(f, 0, Sched(Advance)))
  {
    hide Do, Allowed, Unmoved, Correct;
    var g := Do(f, 0, Sched(Advance));
    var frames := f.s.vps[0].frames;
    JoinReturnMoves(f, g);
    WaitingFrame(f, g, Pop(frames), 0);
    JoinHasNoChildren(f, Last(frames).target);
  }

  /** The frame below the join on top. */
  lemma CallerOfTop(f: Program)
    requires Correct(f) && Lifo(f) && f.s.vps[0].frames != [] && Last(f.s.vps[0].frames).Joining?
    ensures |f.s.vps[0].frames| >= 2 && !Caller(f.s.vps[0]).Joining?
    ensures JoinMatches(f, Caller(f.s.vps[0]), Last(f.s.vps[0].frames).target)
    ensures StrictJoin(f.s.jobs, Caller(f.s.vps[0]), Last(f.s.vps[0].frames).target)
    ensures Caller(f.s.vps[0]).Body? ==>
              var j := Caller(f.s.vps[0]).job;
              j in f.locals && LocalOk(f.s.jobs, f.locals, j, f.locals[j])
  {
    var frames := f.s.vps[0].frames;
    assert VpOk(f.s.jobs, 0, f.s.vps[0]) && VpMatches(f, f.s.vps[0]);
    assert FrameFits(0, frames, |frames| - 1);
    assert JoinMatches(f, frames[|frames| - 2], frames[|frames| - 1].target);
    FibJoinsItsChildren(f, 0, |frames| - 1);
    assert Uninlined(f.s);
  }

  /** A job that is joined and not Finished is still in the list. */
  lemma JoinedIsListed(f: Program)
    requires Correct(f) && Lifo(f) && f.s.vps[0].pc.AtCheck?
    requires f.s.vps[0].frames != [] && Last(f.s.vps[0].frames).Joining?
    requires !IsFinished(f.s.jobs, Last(f.s.vps[0].frames).target)
    ensures IsListed(f.s.jobs, Last(f.s.vps[0].frames).target)
  {
    var frames := f.s.vps[0].frames;
    var t := Last(frames).target;
    CallerOfTop(f);
    assert PlaceOk(f.s.vps, t, f.s.jobs[t]);
    assert VpOk(f.s.jobs, 0, f.s.vps[0]);
    assert LineageOk(f.s.jobs, f.s.clock, f.s.jobs[t]);
    if Caller(f.s.vps[0]).MainCode? {
      MainAtBottom(f.s, 0, |frames| - 2);
    } else {
      assert Caller(f.s.vps[0]) in frames && FrameOk(f.s.jobs, 0, Caller(f.s.vps[0]));
    }
    if f.s.jobs[t].place.Stacked? {
      var i :| 0 <= i < |frames| && frames[i] == Body(t, false);
      assert false;
    }
  }

  lemma SuspendLifo(f: Program)
    requires Correct(f) && Lifo(f) && f.s.vps[0].pc.AtCheck? && !ReturnsFromJoin(f.s, f.s.vps[0])
    ensures Lifo(f.(s := DoAdvance(f.s, 0)))
  {
    var g := f.(s := DoAdvance(f.s, 0));
    assert VpOk(f.s.jobs, 0, f.s.vps[0]);
    CallerOfTop(f);
    JoinedIsListed(f);
    SameWaiting(f, g, f.s.vps[0].frames);
  }

  lemma NewestChild(f: Program)
    requires Correct(f) && Lifo(f) && f.s.vps[0].pc.AtPop? && f.s.vps[0].frames != []
    ensures |f.s.vps[0].frames| >= 2 && ChildrenOf(f, Caller(f.s.vps[0])) != []
    ensures Last(ChildrenOf(f, Caller(f.s.vps[0]))) == Last(f.s.vps[0].frames).target
  {
    hide Waiting;
    CallerOfTop(f);
    var p := f.s.vps[0];
    if Caller(p).Body? && f.locals[Caller(p).job].at.JoiningLeft? {
      FinishedIsUnlisted(f.s, f.locals[Caller(p).job].right);
    }
  }

  lemma WaitingOfTwo(f: Program, frames: seq<Frame>)
    requires |frames| >= 2 && Last(frames).Joining?
    ensures Waiting(f, frames) == Waiting(f, Pop(Pop(frames))) + ChildrenOf(f, frames[|frames| - 2])
  {
    var rest := Pop(frames);
    assert Waiting(f, frames) == Waiting(f, rest) + ChildrenOf(f, Last(frames));
    assert Waiting(f, rest) == Waiting(f, Pop(rest)) + ChildrenOf(f, Last(rest));
    JoinHasNoChildren(f, Last(frames).target);
  }

  /** The newest job in the list is the one that is joined. */
  lemma JoinedIsNewest(f: Program)
    requires Correct(f) && Lifo(f) && f.s.vps[0].pc.AtPop? && f.s.vps[0].frames != []
    ensures f.s.vps[0].list != [] && Last(f.s.vps[0].list).job == Last(f.s.vps[0].frames).target
  {
    NewestChild(f);
    WaitingOfTwo(f, f.s.vps[0].frames);
    LastOfList(f.s.vps[0].list, Waiting(f, Pop(Pop(f.s.vps[0].frames))), ChildrenOf(f, Caller(f.s.vps[0])));
  }

  lemma LastOfList(list: seq<Entry<JobId>>, older: seq<JobId>, newer: seq<JobId>)
    requires Jobs(list) == older + newer && newer != []
    ensures list != [] && Last(list).job == Last(newer) && Jobs(Pop(list)) == older + Pop(newer)
  {
    JobsOfPop(list);
    assert Pop(older + newer) == older + Pop(newer);
  }

  /** The joined job is a child of the caller only. */
  lemma ChildOfOne(f: Program, x: Frame)
    requires Correct(f) && Lifo(f) && f.s.vps[0].frames != [] && Last(f.s.vps[0].frames).Joining?
    requires |f.s.vps[0].frames| >= 2 && x in Pop(Pop(f.s.vps[0].frames))
    ensures NotChild(f, x, Last(f.s.vps[0].frames).target)
  {
    var frames := f.s.vps[0].frames;
    CallerOfTop(f);
    var i :| 0 <= i < |frames| - 2 && frames[i] == x;
    if x.Body? {
      if frames[|frames| - 2].Body? && frames[|frames| - 2].job == x.job {
        BodyUnique(f.s, 0, i, 0, |frames| - 2);
      }
      if x.job in f.locals {
        assert LocalOk(f.s.jobs, f.locals, x.job, f.locals[x.job]);
      }
    }
    if frames[|frames| - 2].MainCode? {
      MainAtBottom(f.s, 0, |frames| - 2);
    }
  }

  lemma PoppedChild(f: Program, g: Program)
    requires Correct(f) && Lifo(f) && f.s.vps[0].pc.AtPop? && f.s.vps[0].frames != []
    requires g == f.(s := DoAdvance(f.s, 0))
    ensures |f.s.vps[0].frames| >= 2 && ChildrenOf(f, Caller(f.s.vps[0])) != []
    ensures ChildrenOf(g, Caller(f.s.vps[0])) == Pop(ChildrenOf(f, Caller(f.s.vps[0])))
    ensures ListedBut(f, g, Last(f.s.vps[0].frames).target)
  {
    hide Waiting, Jobs;
    var p := f.s.vps[0];
    CallerOfTop(f);
    JoinedIsNewest(f);
    NewestChild(f);
    if Caller(p).Body? {
      var l := f.locals[Caller(p).job];
      assert l.left != l.right;
      if l.at.JoiningLeft? {
        FinishedIsUnlisted(f.s, l.right);
      }
    }
  }

  lemma PopLifo(f: Program)
    requires Correct(f) && Lifo(f) && f.s.vps[0].pc.AtPop? && f.s.vps[0].frames != []
    ensures Lifo(f.(s := DoAdvance(f.s, 0)))
  {
    hide Waiting, Jobs, ChildrenOf, Correct;
    var g := f.(s := DoAdvance(f.s, 0));
    var p := f.s.vps[0];
    JoinedIsNewest(f);
    PoppedChild(f, g);
    NewestChild(f);
    var rest := Pop(Pop(p.frames));
    forall x | x in rest
      ensures NotChild(f, x, Last(p.frames).target)
    {
      ChildOfOne(f, x);
    }
    WaitingFrame(f, g, rest, Last(p.frames).target);
    WaitingOfTwo(f, p.frames);
    WaitingOfTwo(g, p.frames);
    LastOfList(p.list, Waiting(f, rest), ChildrenOf(f, Caller(p)));
  }

  lemma ClaimLifo(f: Program)
    requires Correct(f) && Lifo(f) && f.s.vps[0].pc.Popped?
    ensures Lifo(f.(s := DoAdvance(f.s, 0)))
  {
    var g := f.(s := DoAdvance(f.s, 0));
    SameWaiting(f, g, f.s.vps[0].frames);
  }

  lemma RunLifo(f: Program)
    requires Correct(f) && Lifo(f) && FreshAtBegin(f) && f.s.vps[0].pc.AtRun?
    ensures Lifo(f.(s := DoAdvance(f.s, 0)))
  {
    hide Waiting, Jobs;
    var g := f.(s := DoAdvance(f.s, 0));
    var p := f.s.vps[0];
    RunStartsAtBegin(f, g);
    SameWaiting(f, g, p.frames);
    LastHasNone(g, p.frames + [Body(p.pc.job, false)]);
    assert Pop(p.frames + [Body(p.pc.job, false)]) == p.frames;
  }

  lemma RunStartsAtBegin(f: Program, g: Program)
    requires Correct(f) && Lifo(f) && FreshAtBegin(f) && f.s.vps[0].pc.AtRun? && g == f.(s := DoAdvance(f.s, 0))
    ensures ListedBut(f, g, 0) && (IsListed(f.s.jobs, 0) <==> IsListed(g.s.jobs, 0))
    ensures Uninlined(g.s)
    ensures ChildrenOf(g, Body(f.s.vps[0].pc.job, false)) == []
    ensures var p := f.s.vps[0];
            && p.frames != []
            && g.s.vps == [p.(frames := p.frames + [Body(p.pc.job, false)], pc := User)]
  {
    hide Waiting, Jobs;
    var t := f.s.vps[0].pc.job;
    assert VpOk(f.s.jobs, 0, f.s.vps[0]);
    assert PlaceOk(f.s.vps, t, f.s.jobs[t]);
  }

  /** After the end of the main program nothing is left to do. */
  lemma IdleLifo(f: Program)
    requires Correct(f) && Lifo(f) && f.s.vps[0].frames == [] && Enabled(f.s, 0, Advance)
    ensures Lifo(f.(s := DoAdvance(f.s, 0)))
  {
    assert VpOk(f.s.jobs, 0, f.s.vps[0]);
  }

  lemma AdvanceLifo(f: Program)
    requires Correct(f) && Lifo(f) && FreshAtBegin(f) && Allowed(f, 0, Sched(Advance))
    ensures Lifo(Do(f, 0, Sched(Advance)))
  {
    if ReturnsFromJoin(f.s, f.s.vps[0]) {
      JoinReturnLifo(f);
    } else {
      assert Do(f, 0, Sched(Advance)) == f.(s := DoAdvance(f.s, 0));
      hide Do, DoAdvance, Correct;
      assert PcFits(f.s.vps[0]) by { PcFitsAll(f); }
      if f.s.vps[0].frames == [] {
        IdleLifo(f);
      } else {
        match f.s.vps[0].pc
        case Returned => FinishLifo(f);
        case AtCheck => SuspendLifo(f);
        case AtPop => PopLifo(f);
        case Popped(_) => ClaimLifo(f);
        case AtRun(_) => RunLifo(f);
        case AtUncount(_) =>
      }
    }
  }

  lemma PcFitsAll(f: Program)
    requires Correct(f) && |f.s.vps| == 1
    ensures PcFits(f.s.vps[0])
  {
    assert VpOk(f.s.jobs, 0, f.s.vps[0]);
  }

  // ---------------------------------------------------------------- the depth of the stack

  /** Along the call stack the arguments shrink. */
  lemma {:induction false} ArgumentsShrink(f: Program, k: nat)
    requires Correct(f) && Lifo(f) && 1 <= k && 2 * k < |f.s.vps[0].frames|
    requires forall i :: 1 <= i <= k ==> f.s.vps[0].frames[2 * i].Body?
    ensures f.s.vps[0].frames[2 * k].job in f.locals
    ensures f.locals[f.s.vps[0].frames[2 * k].job].arg <= f.n - k + 1
    decreases k
  {
    var frames := f.s.vps[0].frames;
    assert VpOk(f.s.jobs, 0, f.s.vps[0]) && VpMatches(f, f.s.vps[0]);
    assert frames[2 * k - 1] == Joining(frames[2 * k].job);
    assert JoinMatches(f, frames[2 * k - 2], frames[2 * k - 1].target);
    if k > 1 {
      ArgumentsShrink(f, k - 1);
      var j := frames[2 * (k - 1)].job;
      assert LocalOk(f.s.jobs, f.locals, j, f.locals[j]);
    }
  }

  /** So a fork finds fewer suspended jobs than the argument of the call. */
  lemma ForkDepth(f: Program, child: JobId)
    requires Correct(f) && Lifo(f) && Reachable(1, f.s) && Allowed(f, 0, Sched(Fork(child)))
    ensures |f.s.vps[0].context| == 0 || |f.s.vps[0].context| < f.n
  {
    var p := f.s.vps[0];
    var k := |p.context|;
    StackUninlined(f.s, 0);
    ContextAlternates(1, f.s, 0);
    if k > 0 {
      BodiesAtEvenPlaces(f.s, 0, k);
      ArgumentsShrink(f, k);
      assert Last(p.frames) == p.frames[2 * k];
      var j := Last(p.frames).job;
      assert LocalOk(f.s.jobs, f.locals, j, f.locals[j]);
    }
  }

  // ---------------------------------------------------------------- runs on one VP

  lemma EventLifo(f: Program, v: nat, e: Event)
    requires Reachable(1, f.s) && Correct(f) && Lifo(f) && FreshAtBegin(f) && f.n <= INLINE_DEPTH + 1
    requires v < |f.s.vps| && Allowed(f, v, e)
    ensures Lifo(Do(f, v, e))
  {
    hide Lifo, Correct;
    assert v == 0 by { OnlyVp(f); }
    match e
    case WriteSum => WriteLifo(f);
    case Sched(a) =>
      match a
      case Fork(child) =>
        ForkDepth(f, child);
        ForkLifo(f, child);
      case CallJoin(t) => CallJoinLifo(f, t);
      case Return => ReturnLifo(f);
      case Terminate => TerminateLifo(f);
      case Advance => AdvanceLifo(f);
  }

  lemma OnlyVp(f: Program)
    requires Lifo(f)
    ensures |f.s.vps| == 1
  {
  }

  lemma InitialLifo(f: Program)
    requires f.s == Initial(1) && f.main.MainBegin? && f.locals == map[]
    ensures Lifo(f)
  {
    assert Waiting(f, [MainCode]) == Waiting(f, []) + ChildrenOf(f, MainCode);
    assert Jobs([]) == [];
  }

  /** Up to 10001, one VP inlines nothing, and its list is the stack of waiting children. */
  lemma {:induction false} OneVpIsLifo(n: int, run: seq<Program>)
    requires IsFibRun(1, n, run) && n <= INLINE_DEPTH + 1
    ensures Lifo(Last(run))
    decreases |run|
  {
    if |run| == 1 {
      InitialLifo(run[0]);
    } else {
      PrefixIsFibRun(1, n, run, |run| - 2);
      var before := run[..|run| - 1];
      OneVpIsLifo(n, before);
      FibRunReachable(1, n, before);
      RunCorrect(1, n, before);
      RunFresh(1, n, before);
      var f, g := Last(before), Last(run);
      assert Next(run[|run| - 2], run[|run| - 1]);
      var v: nat, e: Event :| v < |f.s.vps| && Allowed(f, v, e) && g == Do(f, v, e);
      EventLifo(f, v, e);
    }
  }

  /** The exact condition on one VP: a run of `fibonacci n` can hang in a join for an inlined job
      if and only if n is at least 10002. */
  lemma OneVpHangsIff(n: int)
    ensures (exists f :: Gets(1, n, f) && InlinedJoinPending(f.s)) <==> n >= 10002
  {
    if n > INLINE_DEPTH + 1 {
      var f := DeepRunsHang(1, n);
      assert HangsAt(f.s, 0, |f.s.vps[0].frames| - 1);
    } else {
      forall f | Gets(1, n, f)
        ensures !InlinedJoinPending(f.s)
      {
        var run :| IsFibRun(1, n, run) && Last(run) == f;
        OneVpIsLifo(n, run);
      }
    }
  }

  /** Arguments for which fork runs nothing inline: those with at most 10000 jobs that fork and join, and on one
      VP those that get at most 10001 calls deep. */
  predicate SmallEnough(vps: nat, n: int)
  {
    InnerCount(n) <= INLINE_DEPTH || (vps == 1 && n <= INLINE_DEPTH + 1)
  }

  lemma SmallRunsInlineNothing(vps: nat, n: int, run: seq<Program>)
    requires IsFibRun(vps, n, run) && SmallEnough(vps, n)
    ensures Uninlined(Last(run).s)
  {
    if InnerCount(n) <= INLINE_DEPTH {
      FewJobsInlineNothing(vps, n, run);
    } else {
      OneVpIsLifo(n, run);
    }
  }

  /** par_fib does not deadlock for such arguments: at every moment of every run, while any job
      is unfinished, some VP reaches a useful action on its own. */
  lemma FibDoesNotDeadlock(vps: nat, n: int, run: seq<Program>, j: JobId) returns (v: nat, k: nat)
    requires IsFibRun(vps, n, run) && SmallEnough(vps, n)
    requires j in Last(run).s.jobs && Last(run).s.jobs[j].state != Finished
    ensures v < vps && k <= vps + 2 && Productive(Solo(Last(run).s, v, k), v)
  {
    SmallRunsInlineNothing(vps, n, run);
    v, k := FibMakesProgress(vps, n, run, j);
  }
}
