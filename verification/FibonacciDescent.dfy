/** Runs of par_fib in which VP 0 does all the work: each join pops the child it waits for and
    runs it at once.  Such a run finishes every call that cannot get 10001 joins deep, and from
    every other call it gets to a join for a job that fork ran inline. */
module FibonacciDescent {
  import opened Options
  import opened HeapOrder
  import opened Scheduler
  import opened SchedulerInvariant
  import opened SchedulerResults
  import opened SchedulerWaiting
  import opened F = Fibonacci

  // ---------------------------------------------------------------- single events

  /** Some run of `fibonacci n` on `vps` VPs gets here. */
  ghost predicate Gets(vps: nat, n: int, f: Program)
  {
    exists run :: IsFibRun(vps, n, run) && Last(run) == f
  }

  lemma GetsCorrect(vps: nat, n: int, f: Program)
    requires Gets(vps, n, f)
    ensures Correct(f) && Reachable(vps, f.s) && f.n == n
  {
    var run :| IsFibRun(vps, n, run) && Last(run) == f;
    RunCorrect(vps, n, run);
    FibRunReachable(vps, n, run);
  }

  lemma GetsOn(vps: nat, n: int, f: Program, e: Event) returns (g: Program)
    requires Gets(vps, n, f) && 0 < |f.s.vps| && Allowed(f, 0, e)
    ensures g == Do(f, 0, e) && Gets(vps, n, g)
  {
    hide Do, Allowed;
    var run :| IsFibRun(vps, n, run) && Last(run) == f;
    g := Do(f, 0, e);
    var longer := run + [g];
    forall i | 0 <= i < |longer| - 1
      ensures Next(longer[i], longer[i + 1])
    {
      if i < |run| - 1 {
        assert Next(run[i], run[i + 1]);
      } else {
        assert longer[i] == f && longer[i + 1] == g;
      }
    }
    assert IsFibRun(vps, n, longer) && Last(longer) == g;
  }

  /** A scheduler action of VP 0 under which no code of the program moves. */
  lemma Silently(vps: nat, n: int, f: Program) returns (g: Program)
    requires Gets(vps, n, f) && 0 < |f.s.vps| && !f.s.vps[0].pc.User? && !f.s.vps[0].pc.Exited?
    requires !ReturnsFromJoin(f.s, f.s.vps[0])
    ensures g == f.(s := DoAdvance(f.s, 0)) && Gets(vps, n, g)
  {
    g := GetsOn(vps, n, f, Sched(Advance));
  }

  // ---------------------------------------------------------------- starting a child

  /** The code of the top frame joins the newest job of its list, and the join runs it. */
  lemma StartChild(vps: nat, n: int, f: Program, t: JobId) returns (g: Program)
    requires Gets(vps, n, f) && 0 < |f.s.vps| && Allowed(f, 0, Sched(CallJoin(t)))
    requires f.s.vps[0].list != [] && Last(f.s.vps[0].list).job == t
    requires t in f.s.jobs && f.s.jobs[t].state == Ready
    ensures Gets(vps, n, g) && 0 < |g.s.vps|
    ensures var p := f.s.vps[0];
            g.s.vps[0] == Vp(Pop(p.list), p.counter, Some(t), p.context + [p.current],
                             p.frames + [Joining(t), Body(t, false)], User)
    ensures t in g.s.jobs && g.s.jobs == f.s.jobs[t := g.s.jobs[t]] && g.s.jobs[t].state == JobState.Running
    ensures g == Do(f, 0, Sched(CallJoin(t))).(s := g.s)
  {
    hide AfterInsert;
    var p := f.s.vps[0];
    var f1 := GetsOn(vps, n, f, Sched(CallJoin(t)));
    assert f1.s == f.s.(vps := f.s.vps[0 := p.(frames := p.frames + [Joining(t)], pc := AtCheck)]);
    hide Do, Allowed;
    var f2 := Silently(vps, n, f1);
    var f3 := Silently(vps, n, f2);
    var f4 := Silently(vps, n, f3);
    g := Silently(vps, n, f4);
    assert f4.s.vps[0].frames == p.frames + [Joining(t)];
    assert p.frames + [Joining(t)] + [Body(t, false)] == p.frames + [Joining(t), Body(t, false)];
  }

  // ---------------------------------------------------------------- forking

  lemma ForkListed(vps: nat, n: int, f: Program, child: JobId) returns (g: Program)
    requires Gets(vps, n, f) && 0 < |f.s.vps| && Allowed(f, 0, Sched(Fork(child)))
    requires |f.s.vps[0].context| <= INLINE_DEPTH
    ensures Gets(vps, n, g) && 0 < |g.s.vps| && g == Do(f, 0, Sched(Fork(child)))
    ensures var p := f.s.vps[0];
            g.s.vps[0] == p.(list := p.list + [Entry(p.counter, child)], counter := p.counter + 1)
    ensures child in g.s.jobs && g.s.jobs == f.s.jobs[child := g.s.jobs[child]]
    ensures g.s.jobs[child].state == Ready && !g.s.jobs[child].inlined
  {
    hide AfterInsert;
    g := GetsOn(vps, n, f, Sched(Fork(child)));
    GetsCorrect(vps, n, f);
    ForkAppends(vps, f.s, 0, child);
    DoIsApply(f, 0, Fork(child));
  }

  lemma ForkInlined(vps: nat, n: int, f: Program, child: JobId) returns (g: Program)
    requires Gets(vps, n, f) && 0 < |f.s.vps| && Allowed(f, 0, Sched(Fork(child)))
    requires |f.s.vps[0].context| > INLINE_DEPTH
    ensures Gets(vps, n, g) && 0 < |g.s.vps| && g == Do(f, 0, Sched(Fork(child)))
    ensures var p := f.s.vps[0];
            g.s.vps[0] == p.(frames := p.frames + [Body(child, true)], counter := p.counter + 1)
    ensures child in g.s.jobs && g.s.jobs == f.s.jobs[child := g.s.jobs[child]]
    ensures g.s.jobs[child].state == Ready && g.s.jobs[child].inlined
  {
    hide AfterInsert;
    g := GetsOn(vps, n, f, Sched(Fork(child)));
    DoIsApply(f, 0, Fork(child));
  }

  // ---------------------------------------------------------------- finishing a child

  /** Job t, run by the join for it, ends, and the join returns. */
  lemma FinishChild(vps: nat, n: int, f: Program, t: JobId) returns (g: Program)
    requires Gets(vps, n, f) && 0 < |f.s.vps| && f.s.vps[0].pc.Returned? && f.s.vps[0].context != []
    requires var fs := f.s.vps[0].frames;
             |fs| >= 3 && fs[|fs| - 1] == Body(t, false) && fs[|fs| - 2] == Joining(t)
    requires t in f.s.jobs && f.s.jobs[t].state == JobState.Running
    requires var x := f.s.vps[0].frames[|f.s.vps[0].frames| - 3]; x.Body? && x.job in f.locals
    ensures Gets(vps, n, g) && 0 < |g.s.vps|
    ensures var p := f.s.vps[0];
            g.s.vps[0] == p.(frames := p.frames[..|p.frames| - 2], current := Last(p.context),
                             context := Pop(p.context), pc := User)
    ensures t in g.s.jobs && g.s.jobs == f.s.jobs[t := g.s.jobs[t]] && IsFinished(g.s.jobs, t)
    ensures var j := f.s.vps[0].frames[|f.s.vps[0].frames| - 3].job;
            && j in g.locals && g == f.(s := g.s, locals := f.locals[j := g.locals[j]])
            && g.locals[j] == f.locals[j].(at := if f.locals[j].at.JoiningRight? then RightJoined else LeftJoined)
  {
    var p := f.s.vps[0];
    var f1 := Silently(vps, n, f);
    var q := f1.s.vps[0];
    assert q.frames == Pop(p.frames) && q.pc.AtCheck?;
    assert ReturnsFromJoin(f1.s, q) && Caller(q) == p.frames[|p.frames| - 3];
    g := GetsOn(vps, n, f1, Sched(Advance));
    JoinReturnDo(f1, g, 0);
    assert Pop(Pop(p.frames)) == p.frames[..|p.frames| - 2];
  }

  // ---------------------------------------------------------------- whole calls

  /** The code on top is that of job t. */
  ghost predicate OnTop(f: Program, t: JobId)
  {
    && 0 < |f.s.vps| && f.s.vps[0].pc.User?
    && f.s.vps[0].frames != [] && Last(f.s.vps[0].frames).Body? && Last(f.s.vps[0].frames).job == t
    && t in f.locals
  }

  /** VP 0 is at the start of the function of job t, whose argument is m. */
  ghost predicate Starting(f: Program, t: JobId, m: int)
  {
    OnTop(f, t) && f.locals[t].at.Begin? && f.locals[t].cell == m
  }

  /** Nothing has happened to the jobs of `f` but those in `moved`. */
  ghost predicate Kept(f: Program, g: Program, moved: set<JobId>)
  {
    && g.main == f.main && g.root == f.root && g.n == f.n
    && (forall c :: c in f.locals ==> c in g.locals && (c !in moved ==> g.locals[c] == f.locals[c]))
    && (forall c :: c in f.s.jobs ==> c in g.s.jobs && (c !in moved ==> g.s.jobs[c] == f.s.jobs[c]))
  }

  /** The function of job t has returned; list, context and call stack of VP 0 are as they were
      when it started. */
  ghost predicate Completed(f: Program, g: Program, t: JobId)
  {
    && 0 < |f.s.vps| && 0 < |g.s.vps| && g.s.vps[0].pc.Returned?
    && g.s.vps[0].frames == f.s.vps[0].frames && g.s.vps[0].list == f.s.vps[0].list
    && g.s.vps[0].context == f.s.vps[0].context
    && Kept(f, g, {t}) && (t in f.s.jobs ==> g.s.jobs[t] == f.s.jobs[t])
  }

  /** A call that cannot get too deep on a stack with `c` suspended jobs. */
  predicate Shallow(m: int, c: nat)
  {
    m < 2 || c + m - 2 <= INLINE_DEPTH
  }

  function Size(m: int): nat
  {
    if m < 0 then 0 else m
  }

  lemma ForkOne(vps: nat, n: int, f: Program, t: JobId) returns (g: Program, c: JobId)
    requires Gets(vps, n, f) && OnTop(f, t) && |f.s.vps[0].context| <= INLINE_DEPTH
    requires (f.locals[t].at.Begin? && f.locals[t].cell >= 2) || f.locals[t].at.LeftForked?
    ensures Gets(vps, n, g) && 0 < |g.s.vps| && t in f.s.jobs && c !in f.s.jobs && c !in f.locals
    ensures var p := f.s.vps[0];
            g.s.vps[0] == p.(list := p.list + [Entry(p.counter, c)], counter := p.counter + 1)
    ensures Kept(f, g, {t}) && g.s.jobs[t] == f.s.jobs[t] && g.locals[t] == AfterFork(f.locals[t], c)
    ensures c in g.s.jobs && g.s.jobs[c].state == Ready && c in g.locals
            && g.locals[c] == NewLocal(ChildArg(f.locals[t]))
  {
    GetsCorrect(vps, n, f);
    c := AboveAll(f.s.jobs.Keys);
    g := ForkListed(vps, n, f, c);
    ForkShape(f, g, 0, c);
    hide Do, DoFork;
  }

  /** Job t forks its two children into the list. */
  lemma ForkBoth(vps: nat, n: int, f: Program, t: JobId, m: int) returns (g: Program, l: JobId, r: JobId)
    requires Gets(vps, n, f) && Starting(f, t, m) && m >= 2 && |f.s.vps[0].context| <= INLINE_DEPTH
    ensures Gets(vps, n, g) && 0 < |g.s.vps| && g.s.vps[0].pc.User?
    ensures t in f.s.jobs && l !in f.locals && r !in f.locals && l !in f.s.jobs && r !in f.s.jobs && l != r
    ensures g.s.vps[0].frames == f.s.vps[0].frames && g.s.vps[0].context == f.s.vps[0].context
    ensures exists i, k :: g.s.vps[0].list == f.s.vps[0].list + [Entry(i, l)] + [Entry(k, r)]
    ensures Kept(f, g, {t}) && g.s.jobs[t] == f.s.jobs[t]
    ensures g.locals[t] == f.locals[t].(at := BothForked, left := l, right := r)
    ensures l in g.s.jobs && g.s.jobs[l].state == Ready && l in g.locals && g.locals[l] == NewLocal(m - 1)
    ensures r in g.s.jobs && g.s.jobs[r].state == Ready && r in g.locals && g.locals[r] == NewLocal(m - 2)
  {
    var p := f.s.vps[0];
    var f1, left := ForkOne(vps, n, f, t);
    var f2, right := ForkOne(vps, n, f1, t);
    g, l, r := f2, left, right;
    assert g.s.vps[0].list == p.list + [Entry(p.counter, l)] + [Entry(p.counter + 1, r)];
  }

  /** Job t is about to join its newest child `c`, and that join runs it to its end. */
  lemma {:induction false} RunChild(vps: nat, n: int, f: Program, t: JobId, c: JobId, m: int) returns (g: Program)
    requires Gets(vps, n, f) && OnTop(f, t) && t != c && c in f.locals && c in f.s.jobs
    requires var l := f.locals[t]; (l.at.BothForked? && c == l.right) || (l.at.RightJoined? && c == l.left)
    requires f.locals[c].at.Begin? && f.locals[c].cell == m && f.s.jobs[c].state == Ready
    requires f.s.vps[0].list != [] && Last(f.s.vps[0].list).job == c
    requires Shallow(m, |f.s.vps[0].context| + 1)
    ensures Gets(vps, n, g) && 0 < |g.s.vps| && g.s.vps[0].pc.User?
    ensures g.s.vps[0].frames == f.s.vps[0].frames && g.s.vps[0].list == Pop(f.s.vps[0].list)
    ensures g.s.vps[0].context == f.s.vps[0].context
    ensures Kept(f, g, {t, c}) && (t in f.s.jobs ==> g.s.jobs[t] == f.s.jobs[t])
    ensures g.locals[t] == f.locals[t].(at := if f.locals[t].at.BothForked? then RightJoined else LeftJoined)
    decreases Size(m), 1
  {
    var p := f.s.vps[0];
    var f1 := StartChild(vps, n, f, c);
    var f2 := Complete(vps, n, f1, c, m);
    assert f2.s.vps[0].frames == p.frames + [Joining(c), Body(c, false)];
    g := FinishChild(vps, n, f2, c);
    assert (p.frames + [Joining(c), Body(c, false)])[..|p.frames|] == p.frames;
    assert Pop(p.context + [p.current]) == p.context;
  }

  /** A call that is not too deep is completed. */
  lemma {:induction false} Complete(vps: nat, n: int, f: Program, t: JobId, m: int) returns (g: Program)
    requires Gets(vps, n, f) && Starting(f, t, m) && Shallow(m, |f.s.vps[0].context|)
    ensures Gets(vps, n, g) && Completed(f, g, t)
    decreases Size(m), 0
  {
    hide Correct, Do, Allowed, Gets;
    if m < 2 {
      g := ReturnFrom(vps, n, f, t);
    } else {
      var f1, l, r := ForkBoth(vps, n, f, t, m);
      var list1 := f1.s.vps[0].list;
      assert Last(list1).job == r && Last(Pop(list1)).job == l && Pop(Pop(list1)) == f.s.vps[0].list;
      var f2 := RunChild(vps, n, f1, t, r, m - 2);
      var f3 := RunChild(vps, n, f2, t, l, m - 1);
      KeptChain(f, f1, f2, f3, t, l, r);
      var f4 := WriteFrom(vps, n, f3, t);
      g := ReturnFrom(vps, n, f4, t);
    }
  }

  lemma KeptChain(f: Program, f1: Program, f2: Program, f3: Program, t: JobId, l: JobId, r: JobId)
    requires Kept(f, f1, {t}) && Kept(f1, f2, {t, r}) && Kept(f2, f3, {t, l})
    requires l !in f.locals && r !in f.locals && l !in f.s.jobs && r !in f.s.jobs
    ensures Kept(f, f3, {t})
  {
  }

  lemma WriteFrom(vps: nat, n: int, f: Program, t: JobId) returns (g: Program)
    requires Gets(vps, n, f) && OnTop(f, t) && f.locals[t].at.LeftJoined?
    requires f.locals[t].left in f.locals && f.locals[t].right in f.locals
    ensures Gets(vps, n, g) && g.s == f.s && Kept(f, g, {t}) && g.locals[t].at.Written?
  {
    g := GetsOn(vps, n, f, WriteSum);
  }

  lemma ReturnFrom(vps: nat, n: int, f: Program, t: JobId) returns (g: Program)
    requires Gets(vps, n, f) && OnTop(f, t)
    requires f.locals[t].at.Written? || (f.locals[t].at.Begin? && f.locals[t].cell < 2)
    ensures Gets(vps, n, g) && Completed(f, g, t)
  {
    g := GetsOn(vps, n, f, Sched(Return));
  }

  // ---------------------------------------------------------------- calls that get too deep

  /** VP 0 has just joined a job that fork ran inline. */
  ghost predicate Stuck(f: Program)
  {
    && 0 < |f.s.vps| && f.s.vps[0].frames != [] && Last(f.s.vps[0].frames).Joining?
    && Last(f.s.vps[0].frames).target in f.s.jobs && f.s.jobs[Last(f.s.vps[0].frames).target].inlined
  }

  lemma ForkOneInlined(vps: nat, n: int, f: Program, t: JobId) returns (g: Program, c: JobId)
    requires Gets(vps, n, f) && OnTop(f, t) && |f.s.vps[0].context| > INLINE_DEPTH
    requires (f.locals[t].at.Begin? && f.locals[t].cell >= 2) || f.locals[t].at.LeftForked?
    ensures Gets(vps, n, g) && 0 < |g.s.vps| && c !in f.locals
    ensures g.s.vps[0].frames == f.s.vps[0].frames + [Body(c, true)] && g.s.vps[0].context == f.s.vps[0].context
    ensures Starting(g, c, ChildArg(f.locals[t])) && t in g.locals && g.locals[t] == AfterFork(f.locals[t], c)
    ensures c in g.s.jobs && g.s.jobs[c].inlined
  {
    GetsCorrect(vps, n, f);
    c := AboveAll(f.s.jobs.Keys);
    g := ForkInlined(vps, n, f, c);
    ForkShape(f, g, 0, c);
    hide Do, DoFork;
  }

  /** A trivial inlined child returns to the code that forked it. */
  lemma ReturnInlined(vps: nat, n: int, f: Program, c: JobId, m: int) returns (g: Program)
    requires Gets(vps, n, f) && Starting(f, c, m) && m < 2 && Last(f.s.vps[0].frames).inlined
    ensures Gets(vps, n, g) && 0 < |g.s.vps| && g.s.vps[0].pc.User?
    ensures g.s.vps[0].frames == Pop(f.s.vps[0].frames) && g.s.vps[0].context == f.s.vps[0].context
    ensures g.locals.Keys == f.locals.Keys && forall i :: i in f.locals && i != c ==> g.locals[i] == f.locals[i]
    ensures c in f.s.jobs ==> c in g.s.jobs && g.s.jobs[c].inlined == f.s.jobs[c].inlined
  {
    var f1 := GetsOn(vps, n, f, Sched(Return));
    g := Silently(vps, n, f1);
  }

  /** With too many suspended jobs both children are run inline, down to a smallest one, and the
      join for them is never answered. */
  lemma {:induction false} Hang(vps: nat, n: int, f: Program, t: JobId, m: int) returns (g: Program)
    requires Gets(vps, n, f) && Starting(f, t, m) && m >= 2 && |f.s.vps[0].context| > INLINE_DEPTH
    ensures Gets(vps, n, g) && Stuck(g) && f.s.vps[0].frames <= g.s.vps[0].frames
    decreases Size(m)
  {
    var f1, l := ForkOneInlined(vps, n, f, t);
    if m > 2 {
      g := Hang(vps, n, f1, l, m - 1);
    } else {
      var f2 := ReturnInlined(vps, n, f1, l, m - 1);
      assert f2.s.vps[0].frames == f.s.vps[0].frames;
      var f3, r := ForkOneInlined(vps, n, f2, t);
      var f4 := ReturnInlined(vps, n, f3, r, m - 2);
      assert f4.s.vps[0].frames == f.s.vps[0].frames;
      g := GetsOn(vps, n, f4, Sched(CallJoin(r)));
    }
  }

  /** A call that can get too deep does: its right child if that one can, and else, once that
      is done, its left child. */
  lemma {:induction false} Descend(vps: nat, n: int, f: Program, t: JobId, m: int) returns (g: Program)
    requires Gets(vps, n, f) && Starting(f, t, m) && !Shallow(m, |f.s.vps[0].context|)
    ensures Gets(vps, n, g) && Stuck(g) && f.s.vps[0].frames <= g.s.vps[0].frames
    decreases Size(m)
  {
    if |f.s.vps[0].context| > INLINE_DEPTH {
      g := Hang(vps, n, f, t, m);
    } else {
      var f1, l, r := ForkBoth(vps, n, f, t, m);
      assert Pop(f1.s.vps[0].list) + [Last(f1.s.vps[0].list)] == f1.s.vps[0].list;
      if !Shallow(m - 2, |f.s.vps[0].context| + 1) {
        var f2 := StartChild(vps, n, f1, r);
        g := Descend(vps, n, f2, r, m - 2);
      } else {
        var f2 := RunChild(vps, n, f1, t, r, m - 2);
        var f3 := StartChild(vps, n, f2, l);
        g := Descend(vps, n, f3, l, m - 1);
      }
    }
  }

  // ---------------------------------------------------------------- the whole program

  lemma {:induction false} StartProgram(vps: nat, n: int) returns (f: Program)
    requires vps >= 1
    ensures Gets(vps, n, f) && f.main.JoiningRoot? && f.root in f.s.jobs && f.root in f.locals
    ensures Starting(f, f.root, n) && |f.s.vps[0].context| == 1 && f.s.jobs[f.root].state == JobState.Running
    ensures f.s.vps[0].frames == [MainCode, Joining(f.root), Body(f.root, false)] && f.s.vps[0].list == []
  {
    var f0 := Program(Initial(vps), n, MainBegin, 0, map[]);
    assert IsFibRun(vps, n, [f0]) && Last([f0]) == f0;
    var f1 := ForkListed(vps, n, f0, 0);
    f := StartChild(vps, n, f1, 0);
  }

  /** On every number of VPs some run of par_fib from 10002 on hangs. */
  lemma DeepRunsHang(vps: nat, n: int) returns (f: Program)
    requires vps >= 1 && n > INLINE_DEPTH + 1
    ensures Gets(vps, n, f) && Stuck(f) && MainWaits(f.s.vps[0].frames)
  {
    var f0 := StartProgram(vps, n);
    f := Descend(vps, n, f0, f0.root, n);
  }

  /** The main program is in its join, at the bottom of the stack. */
  ghost predicate MainWaits(frames: seq<Frame>)
  {
    |frames| >= 2 && frames[0].MainCode? && frames[1].Joining?
  }

  lemma NextUnder(f: Program, g: Program, fs: seq<Frame>)
    requires Correct(f) && Correct(g) && Next(f, g)
    requires fs != [] && Last(fs).Joining? && Under(f.s, 0, fs)
    requires Last(fs).target in f.s.jobs && f.s.jobs[Last(fs).target].inlined
    ensures Under(g.s, 0, fs) && Last(fs).target in g.s.jobs && g.s.jobs[Last(fs).target].inlined
  {
    var v: nat, e: Event :| v < |f.s.vps| && Allowed(f, v, e) && g == Do(f, v, e);
    if e.Sched? {
      DoIsApply(f, v, e.a);
      hide Do, Allowed;
      assert Step(f.s, g.s);
      StaysInlined(f.s, g.s, Last(fs).target);
      UnderStep(f.s, g.s, 0, fs);
      assert PlaceOk(g.s.vps, Last(fs).target, g.s.jobs[Last(fs).target]);
    }
  }

  /** And that is final: in every continuation the main program is still waiting. */
  lemma {:induction false} StuckForever(vps: nat, n: int, run: seq<Program>, i: nat)
    requires IsFibRun(vps, n, run) && i < |run| && Stuck(run[i]) && MainWaits(run[i].s.vps[0].frames)
    ensures Last(run).main.JoiningRoot?
    ensures Under(Last(run).s, 0, run[i].s.vps[0].frames)
    ensures var t := Last(run[i].s.vps[0].frames).target; t in Last(run).s.jobs && Last(run).s.jobs[t].inlined
    decreases |run|
  {
    var fs := run[i].s.vps[0].frames;
    RunCorrect(vps, n, run);
    var g := Last(run);
    if i < |run| - 1 {
      PrefixIsFibRun(vps, n, run, |run| - 2);
      var before := run[..|run| - 1];
      assert before[i] == run[i];
      StuckForever(vps, n, before, i);
      RunCorrect(vps, n, before);
      assert Next(run[|run| - 2], run[|run| - 1]);
      NextUnder(Last(before), g, fs);
    }
    assert VpMatches(g, g.s.vps[0]);
    assert g.s.vps[0].frames[0] == fs[0] && g.s.vps[0].frames[1] == fs[1];
    assert JoinMatches(g, g.s.vps[0].frames[0], g.s.vps[0].frames[1].target);
  }

  /** On every number of VPs some run of par_fib up to 10001 finishes. */
  lemma ShallowRunsFinish(vps: nat, n: int) returns (f: Program)
    requires vps >= 1 && n <= INLINE_DEPTH + 1
    ensures Gets(vps, n, f) && f.main.RootJoined?
  {
    var f0 := StartProgram(vps, n);
    var t := f0.root;
    var f1 := Complete(vps, n, f0, t, n);
    GetsCorrect(vps, n, f1);
    var f2 := Silently(vps, n, f1);
    var q := f2.s.vps[0];
    assert q.frames == [MainCode, Joining(t)] && q.pc.AtCheck?;
    assert ReturnsFromJoin(f2.s, q) && Caller(q) == MainCode;
    f := GetsOn(vps, n, f2, Sched(Advance));
    JoinReturnDo(f2, f, 0);
  }
}
