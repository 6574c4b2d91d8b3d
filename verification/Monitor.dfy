/** Termination detection with one mutex, one condition variable and a counter of waiting
    VPs.  A step is one critical section, or the run of one task outside of it. */
module Monitor {

  /** Where a VP is in vp_func. */
  datatype Pc =
    | AtTop             // about to lock the mutex
    | Busy(task: int)   // running a task
    | Pushing           // task 5 ended, about to lock the mutex in update_graph
    | Waiting           // blocked in pthread_cond_wait
    | Woken             // signalled, about to get the mutex back
    | Gone              // left the loop

  /** The last three are history: the tasks ever put in the list, those taken from it, and those
      run to their end, each in the order in which that happened. */
  datatype State = State(
    vps: seq<Pc>, tasks: seq<int>, waiting: nat, finished: bool,
    listed: seq<int>, taken: seq<int>, ended: seq<int>)

  predicate IsTask(t: int)
  {
    3 <= t <= 5
  }

  function Initial(n: nat, tasks: seq<int>): State
  {
    State(seq(n, _ => AtTop), tasks, 0, false, tasks, [], [])
  }

  /** pthread_cond_broadcast */
  function Broadcast(vps: seq<Pc>): (r: seq<Pc>)
    ensures |r| == |vps|
    ensures forall v :: 0 <= v < |vps| ==> r[v] == if vps[v].Waiting? then Woken else vps[v]
  {
    seq(|vps|, v requires 0 <= v < |vps| => if vps[v].Waiting? then Woken else vps[v])
  }

  // ---------------------------------------------------------------- steps

  datatype Action = Enter | EndTask | Push(task: int) | Wake | Spurious

  predicate Enabled(s: State, v: nat, a: Action)
  {
    v < |s.vps| &&
    match a
    case Enter => s.vps[v].AtTop?
    case EndTask => s.vps[v].Busy?
    case Push(t) => s.vps[v].Pushing? && IsTask(t)
    case Wake => s.vps[v].Woken?
    case Spurious => s.vps[v].Waiting?
  }

  function Apply(s: State, v: nat, a: Action): State
    requires Enabled(s, v, a)
  {
    match a
    case Enter => DoEnter(s, v)
    case EndTask =>
      var task := s.vps[v].task;
      s.(vps := s.vps[v := if task == 5 then Pushing else AtTop], ended := s.ended + [task])
    case Push(t) => DoPush(s, v, t)
    case Wake => s.(vps := s.vps[v := AtTop], waiting := if s.waiting == 0 then 0 else s.waiting - 1)
    case Spurious => s.(vps := s.vps[v := Woken])
  }

  /** The critical section of the loop; a zero task means that the list was empty. */
  function DoEnter(s: State, v: nat): State
    requires v < |s.vps|
  {
    if s.finished then s.(vps := s.vps[v := Gone])
    else if s.tasks != [] && s.tasks[0] != 0 then
      s.(vps := s.vps[v := Busy(s.tasks[0])], tasks := s.tasks[1..], taken := s.taken + [s.tasks[0]])
    else
      var rest := if s.tasks == [] then [] else s.tasks[1..];
      if s.waiting + 1 == |s.vps| then
        s.(tasks := rest, waiting := s.waiting + 1, finished := true, vps := Broadcast(s.vps))
      else
        s.(tasks := rest, waiting := s.waiting + 1, vps := s.vps[v := Waiting])
  }

  /** The critical section of update_graph. */
  function DoPush(s: State, v: nat, t: int): State
    requires v < |s.vps|
  {
    s.(tasks := s.tasks + [t], listed := s.listed + [t],
       vps := (if s.waiting > 0 then Broadcast(s.vps) else s.vps)[v := AtTop])
  }

  ghost predicate Step(s: State, s': State)
  {
    exists v: nat, a: Action :: Enabled(s, v, a) && s' == Apply(s, v, a)
  }

  ghost predicate IsRun(n: nat, tasks: seq<int>, run: seq<State>)
  {
    && n >= 1 && (forall t :: t in tasks ==> IsTask(t)) && run != [] && run[0] == Initial(n, tasks)
    && forall i :: 0 <= i < |run| - 1 ==> Step(run[i], run[i + 1])
  }

  // ---------------------------------------------------------------- counting

  predicate InWait(p: Pc)
  {
    p.Waiting? || p.Woken?
  }

  predicate IsPushing(p: Pc)
  {
    p.Pushing?
  }

  /** Running a task of this cost. */
  function Runs(t: int): Pc -> bool
  {
    p => p == Busy(t)
  }

  function Count(kind: Pc -> bool, vps: seq<Pc>): (c: nat)
    ensures c <= |vps|
  {
    if vps == [] then 0 else Count(kind, vps[..|vps| - 1]) + if kind(vps[|vps| - 1]) then 1 else 0
  }

  lemma {:induction false} CountUpdate(kind: Pc -> bool, vps: seq<Pc>, v: nat, p: Pc)
    requires v < |vps|
    ensures Count(kind, vps[v := p]) + (if kind(vps[v]) then 1 else 0) == Count(kind, vps) + if kind(p) then 1 else 0
    decreases |vps|
  {
    var n := |vps| - 1;
    if v == n {
      assert vps[v := p][..n] == vps[..n];
    } else {
      assert vps[v := p][..n] == vps[..n][v := p];
      CountUpdate(kind, vps[..n], v, p);
    }
  }

  lemma {:induction false} CountBroadcast(kind: Pc -> bool, vps: seq<Pc>)
    requires kind(Waiting) == kind(Woken)
    ensures Count(kind, Broadcast(vps)) == Count(kind, vps)
    decreases |vps|
  {
    if vps != [] {
      var n := |vps| - 1;
      assert Broadcast(vps)[..n] == Broadcast(vps[..n]);
      CountBroadcast(kind, vps[..n]);
    }
  }

  /** All but one are counted. */
  lemma {:induction false} AllButOne(kind: Pc -> bool, vps: seq<Pc>, v: nat)
    requires v < |vps| && !kind(vps[v]) && Count(kind, vps) >= |vps| - 1
    ensures forall w :: 0 <= w < |vps| && w != v ==> kind(vps[w])
  {
    forall w | 0 <= w < |vps| && w != v
      ensures kind(vps[w])
    {
      if !kind(vps[w]) {
        CountMisses(kind, vps, v, w);
      }
    }
  }

  lemma {:induction false} CountMisses(kind: Pc -> bool, vps: seq<Pc>, v: nat, w: nat)
    requires v < |vps| && w < |vps| && v != w && !kind(vps[v]) && !kind(vps[w])
    ensures Count(kind, vps) <= |vps| - 2
    decreases |vps|
  {
    var n := |vps| - 1;
    if v < n && w < n {
      CountMisses(kind, vps[..n], v, w);
    } else {
      CountMissesOne(kind, vps[..n], if v < n then v else w);
    }
  }

  lemma {:induction false} CountMissesOne(kind: Pc -> bool, vps: seq<Pc>, v: nat)
    requires v < |vps| && !kind(vps[v])
    ensures Count(kind, vps) <= |vps| - 1
    decreases |vps|
  {
    var n := |vps| - 1;
    if v < n {
      CountMissesOne(kind, vps[..n], v);
    }
  }

  lemma {:induction false} CountNone(kind: Pc -> bool, vps: seq<Pc>)
    requires forall v :: 0 <= v < |vps| ==> !kind(vps[v])
    ensures Count(kind, vps) == 0
    decreases |vps|
  {
    if vps != [] {
      CountNone(kind, vps[..|vps| - 1]);
    }
  }

  // ---------------------------------------------------------------- the invariant

  ghost predicate PcOk(s: State, p: Pc)
  {
    match p
    case Busy(t) => IsTask(t) && !s.finished
    case Pushing => !s.finished
    case Waiting => s.tasks == [] && !s.finished
    case Gone => s.finished
    case _ => true
  }

  /** `waiting` counts the VPs in or returning from the wait, and the declarer, which
      counted itself and never takes that back. */
  ghost predicate Inv(s: State)
  {
    && s.vps != []
    && s.waiting == Count(InWait, s.vps) + (if s.finished then 1 else 0)
    && (!s.finished ==> s.waiting < |s.vps|)
    && (s.finished ==> s.tasks == [])
    && (forall t :: t in s.tasks ==> IsTask(t))
    && (forall v :: 0 <= v < |s.vps| ==> PcOk(s, s.vps[v]))
  }

  /** A task that was taken is running or has ended, once. */
  ghost predicate TakenOk(s: State, t: int)
  {
    multiset(s.taken)[t] == multiset(s.ended)[t] + Count(Runs(t), s.vps)
  }

  /** The list is first in, first out; and each task of cost 5 that has ended has brought a new
      task, or is about to. */
  ghost predicate HistoryOk(s: State, tasks: seq<int>)
  {
    && tasks <= s.listed == s.taken + s.tasks
    && (forall t :: t in s.listed ==> 3 <= t <= 5)
    && (forall t :: TakenOk(s, t))
    && |s.listed| + Count(IsPushing, s.vps) == |tasks| + multiset(s.ended)[5]
  }

  lemma {:induction false} InitialInv(n: nat, tasks: seq<int>)
    requires n >= 1 && forall t :: t in tasks ==> IsTask(t)
    ensures Inv(Initial(n, tasks))
  {
    CountNone(InWait, Initial(n, tasks).vps);
  }

  lemma EnterKeepsInv(s: State, v: nat)
    requires Inv(s) && Enabled(s, v, Enter)
    ensures Inv(DoEnter(s, v))
  {
    var s' := DoEnter(s, v);
    assert s.tasks != [] ==> s.tasks[0] in s.tasks;
    if !s.finished && s.tasks == [] && s.waiting + 1 == |s.vps| {
      AllButOne(InWait, s.vps, v);
      CountBroadcast(InWait, s.vps);
    } else {
      CountUpdate(InWait, s.vps, v, s'.vps[v]);
    }
    forall w | 0 <= w < |s'.vps|
      ensures PcOk(s', s'.vps[w])
    {
      assert PcOk(s, s.vps[w]);
    }
  }

  lemma PushKeepsInv(s: State, v: nat, t: int)
    requires Inv(s) && Enabled(s, v, Push(t))
    ensures Inv(DoPush(s, v, t))
  {
    var s' := DoPush(s, v, t);
    assert PcOk(s, s.vps[v]);
    if s.waiting > 0 {
      CountBroadcast(InWait, s.vps);
      CountUpdate(InWait, Broadcast(s.vps), v, AtTop);
    } else {
      CountUpdate(InWait, s.vps, v, AtTop);
    }
    forall w | 0 <= w < |s'.vps|
      ensures PcOk(s', s'.vps[w])
    {
      assert PcOk(s, s.vps[w]);
      if s.waiting == 0 && s.vps[w].Waiting? {
        SomeCounted(InWait, s.vps, w);
      }
    }
  }

  lemma {:induction false} SomeCounted(kind: Pc -> bool, vps: seq<Pc>, v: nat)
    requires v < |vps| && kind(vps[v])
    ensures Count(kind, vps) >= 1
    decreases |vps|
  {
    if v < |vps| - 1 {
      SomeCounted(kind, vps[..|vps| - 1], v);
    }
  }

  lemma StepKeepsInv(s: State, v: nat, a: Action)
    requires Inv(s) && Enabled(s, v, a)
    ensures Inv(Apply(s, v, a)) && |Apply(s, v, a).vps| == |s.vps|
  {
    var s' := Apply(s, v, a);
    match a
    case Enter => EnterKeepsInv(s, v);
    case Push(t) => PushKeepsInv(s, v, t);
    case _ =>
      assert PcOk(s, s.vps[v]);
      SimpleKeepsInv(s, s', v);
  }

  lemma SimpleKeepsInv(s: State, s': State, v: nat)
    requires Inv(s) && v < |s.vps| && (s.vps[v].Busy? || s.vps[v].Woken? || s.vps[v].Waiting?)
    requires s' == Apply(s, v, if s.vps[v].Busy? then EndTask else if s.vps[v].Woken? then Wake else Spurious)
    ensures Inv(s')
  {
    CountUpdate(InWait, s.vps, v, s'.vps[v]);
    forall w | 0 <= w < |s'.vps|
      ensures PcOk(s', s'.vps[w])
    {
      assert PcOk(s, s.vps[w]);
      assert PcOk(s, s.vps[v]);
    }
  }

  lemma Appended(q: seq<int>, x: int, t: int)
    ensures multiset(q + [x])[t] == multiset(q)[t] + if t == x then 1 else 0
  {
  }

  lemma EnterKeepsHistory(s: State, v: nat, tasks: seq<int>)
    requires Inv(s) && Enabled(s, v, Enter) && HistoryOk(s, tasks)
    ensures HistoryOk(DoEnter(s, v), tasks)
  {
    var s' := DoEnter(s, v);
    assert s.tasks != [] ==> s.tasks[0] in s.listed && s.taken + s.tasks == s.taken + [s.tasks[0]] + s.tasks[1..];
    var last := !s.finished && s.tasks == [] && s.waiting + 1 == |s.vps|;
    if last {
      CountBroadcast(IsPushing, s.vps);
    } else {
      CountUpdate(IsPushing, s.vps, v, s'.vps[v]);
    }
    forall t
      ensures TakenOk(s', t)
    {
      assert TakenOk(s, t);
      if last {
        CountBroadcast(Runs(t), s.vps);
      } else {
        CountUpdate(Runs(t), s.vps, v, s'.vps[v]);
        if s.tasks != [] {
          Appended(s.taken, s.tasks[0], t);
        }
      }
    }
  }

  /** The rule of update_graph: a task of cost 5, and no other, brings one new task. */
  lemma EndKeepsHistory(s: State, v: nat, tasks: seq<int>)
    requires Inv(s) && Enabled(s, v, EndTask) && HistoryOk(s, tasks)
    ensures HistoryOk(Apply(s, v, EndTask), tasks)
  {
    var s' := Apply(s, v, EndTask);
    var task := s.vps[v].task;
    CountUpdate(IsPushing, s.vps, v, s'.vps[v]);
    Appended(s.ended, task, 5);
    forall t
      ensures TakenOk(s', t)
    {
      assert TakenOk(s, t);
      CountUpdate(Runs(t), s.vps, v, s'.vps[v]);
      Appended(s.ended, task, t);
    }
  }

  lemma PushKeepsHistory(s: State, v: nat, task: int, tasks: seq<int>)
    requires Inv(s) && Enabled(s, v, Push(task)) && HistoryOk(s, tasks)
    ensures HistoryOk(DoPush(s, v, task), tasks)
  {
    var s' := DoPush(s, v, task);
    var vps := if s.waiting > 0 then Broadcast(s.vps) else s.vps;
    assert s.taken + (s.tasks + [task]) == s.listed + [task];
    CountBroadcast(IsPushing, s.vps);
    CountUpdate(IsPushing, vps, v, AtTop);
    forall t
      ensures TakenOk(s', t)
    {
      assert TakenOk(s, t);
      CountBroadcast(Runs(t), s.vps);
      CountUpdate(Runs(t), vps, v, AtTop);
    }
  }

  lemma StepKeepsHistory(s: State, v: nat, a: Action, tasks: seq<int>)
    requires Inv(s) && Enabled(s, v, a) && HistoryOk(s, tasks)
    ensures HistoryOk(Apply(s, v, a), tasks)
  {
    var s' := Apply(s, v, a);
    match a
    case Enter => EnterKeepsHistory(s, v, tasks);
    case EndTask => EndKeepsHistory(s, v, tasks);
    case Push(task) => PushKeepsHistory(s, v, task, tasks);
    case _ =>
      CountUpdate(IsPushing, s.vps, v, s'.vps[v]);
      forall t
        ensures TakenOk(s', t)
      {
        assert TakenOk(s, t);
        CountUpdate(Runs(t), s.vps, v, s'.vps[v]);
      }
  }

  lemma {:induction false} InitialHistory(n: nat, tasks: seq<int>)
    requires forall t :: t in tasks ==> IsTask(t)
    ensures HistoryOk(Initial(n, tasks), tasks)
  {
    var s := Initial(n, tasks);
    CountNone(IsPushing, s.vps);
    forall t
      ensures TakenOk(s, t)
    {
      CountNone(Runs(t), s.vps);
    }
  }

  lemma {:induction false} RunInv(n: nat, tasks: seq<int>, run: seq<State>)
    requires IsRun(n, tasks, run)
    ensures Inv(run[|run| - 1]) && |run[|run| - 1].vps| == n && HistoryOk(run[|run| - 1], tasks)
    decreases |run|
  {
    if |run| == 1 {
      InitialInv(n, tasks);
      InitialHistory(n, tasks);
    } else {
      var before := run[..|run| - 1];
      assert IsRun(n, tasks, before);
      RunInv(n, tasks, before);
      var s, s' := run[|run| - 2], run[|run| - 1];
      assert Step(s, s');
      var v: nat, a: Action :| Enabled(s, v, a) && s' == Apply(s, v, a);
      StepKeepsInv(s, v, a);
      StepKeepsHistory(s, v, a, tasks);
    }
  }

  // ---------------------------------------------------------------- results

  /** First in, first out: the tasks taken so far are, in order, the first of all tasks ever listed,
      which begin with the given ones; each taken task is running or has ended, once. */
  lemma TasksInOrder(n: nat, tasks: seq<int>, run: seq<State>)
    requires IsRun(n, tasks, run)
    ensures var s := run[|run| - 1];
            && tasks <= s.listed == s.taken + s.tasks
            && forall t :: multiset(s.taken)[t] == multiset(s.ended)[t] + Count(Runs(t), s.vps)
  {
    RunInv(n, tasks, run);
    var s := run[|run| - 1];
    forall t
      ensures multiset(s.taken)[t] == multiset(s.ended)[t] + Count(Runs(t), s.vps)
    {
      assert TakenOk(s, t);
    }
  }

  /** The new tasks cost 3, 4 or 5, and there is one, or about to be one, for each task of cost 5
      that has ended. */
  lemma NewTaskPerFive(n: nat, tasks: seq<int>, run: seq<State>)
    requires IsRun(n, tasks, run)
    ensures var s := run[|run| - 1];
            && (forall t :: t in s.listed ==> 3 <= t <= 5)
            && |s.listed| - |tasks| + Count(IsPushing, s.vps) == multiset(s.ended)[5]
  {
    RunInv(n, tasks, run);
  }

  /** Soundness: when program_finished is set, no task is listed, none is running and no VP
      is about to push one; every task ever listed has been run to its end, once, and every one of
      cost 5 among them has brought another. */
  lemma FinishedMeansNoWork(n: nat, tasks: seq<int>, run: seq<State>)
    requires IsRun(n, tasks, run) && run[|run| - 1].finished
    ensures var s := run[|run| - 1];
            && s.tasks == [] && multiset(s.listed) == multiset(s.ended)
            && |s.listed| == |tasks| + multiset(s.listed)[5]
            && forall v :: 0 <= v < |s.vps| ==> s.vps[v].AtTop? || s.vps[v].Woken? || s.vps[v].Gone?
  {
    RunInv(n, tasks, run);
    var s := run[|run| - 1];
    forall v | 0 <= v < |s.vps|
      ensures s.vps[v].AtTop? || s.vps[v].Woken? || s.vps[v].Gone?
    {
      assert PcOk(s, s.vps[v]);
    }
    CountNone(IsPushing, s.vps);
    assert s.listed == s.taken;
    forall t
      ensures multiset(s.listed)[t] == multiset(s.ended)[t]
    {
      assert TakenOk(s, t);
      CountNone(Runs(t), s.vps);
    }
  }

  /** The counter: VPs in or returning from the wait, plus the declarer once there is one. */
  lemma WaitingIsExact(n: nat, tasks: seq<int>, run: seq<State>)
    requires IsRun(n, tasks, run)
    ensures var s := run[|run| - 1];
            && s.waiting == Count(InWait, s.vps) + (if s.finished then 1 else 0)
            && (!s.finished ==> s.waiting < n)
  {
    RunInv(n, tasks, run);
  }

  /** No lost wakeup: a VP is blocked without a signal only while the list is empty and the
      program goes on, and then another VP is not blocked. */
  lemma NoLostWakeup(n: nat, tasks: seq<int>, run: seq<State>, v: nat) returns (w: nat)
    requires IsRun(n, tasks, run) && v < |run[|run| - 1].vps| && run[|run| - 1].vps[v].Waiting?
    ensures run[|run| - 1].tasks == [] && !run[|run| - 1].finished
    ensures w < n == |run[|run| - 1].vps|
    ensures var p := run[|run| - 1].vps[w]; p.AtTop? || p.Busy? || p.Pushing?
  {
    RunInv(n, tasks, run);
    var s := run[|run| - 1];
    assert PcOk(s, s.vps[v]);
    w := NotCounted(InWait, s.vps);
    assert PcOk(s, s.vps[w]);
  }

  lemma {:induction false} NotCounted(kind: Pc -> bool, vps: seq<Pc>) returns (w: nat)
    requires Count(kind, vps) < |vps|
    ensures w < |vps| && !kind(vps[w])
    decreases |vps|
  {
    var n := |vps| - 1;
    if kind(vps[n]) {
      w := NotCounted(kind, vps[..n]);
    } else {
      w := n;
    }
  }

  /** No deadlock: until all VPs have left, some VP can act without a spurious wakeup. */
  lemma SomebodyCanAct(n: nat, tasks: seq<int>, run: seq<State>, v: nat) returns (w: nat, a: Action)
    requires IsRun(n, tasks, run) && v < |run[|run| - 1].vps| && !run[|run| - 1].vps[v].Gone?
    ensures Enabled(run[|run| - 1], w, a) && !a.Spurious?
  {
    var s := run[|run| - 1];
    w := v;
    if s.vps[v].Waiting? {
      w := NoLostWakeup(n, tasks, run, v);
    }
    a := match s.vps[w] case AtTop => Enter case Busy(_) => EndTask case Pushing => Push(3) case _ => Wake;
  }

  /** What the VPs still have to do once the program is finished. */
  function Rank(vps: seq<Pc>): nat
  {
    if vps == [] then 0
    else Rank(vps[..|vps| - 1]) + (if vps[|vps| - 1].Gone? then 0 else if vps[|vps| - 1].AtTop? then 1 else 2)
  }

  lemma {:induction false} RankUpdate(vps: seq<Pc>, v: nat, p: Pc)
    requires v < |vps| && ((vps[v].AtTop? && p.Gone?) || (vps[v].Woken? && p.AtTop?))
    ensures Rank(vps[v := p]) < Rank(vps)
    decreases |vps|
  {
    var n := |vps| - 1;
    if v == n {
      assert vps[v := p][..n] == vps[..n];
    } else {
      assert vps[v := p][..n] == vps[..n][v := p];
      RankUpdate(vps[..n], v, p);
    }
  }

  lemma {:induction false} RankBound(vps: seq<Pc>)
    ensures Rank(vps) <= 2 * |vps|
    decreases |vps|
  {
    if vps != [] {
      RankBound(vps[..|vps| - 1]);
    }
  }

  /** Shutdown takes at most two more steps per VP: program_finished stays set, and every
      continuation brings the rest of the work down. */
  lemma {:induction false} ShutdownIsShort(path: seq<State>)
    requires path != [] && Inv(path[0]) && path[0].finished
    requires forall i :: 0 <= i < |path| - 1 ==> Step(path[i], path[i + 1])
    ensures path[|path| - 1].finished && path[|path| - 1].tasks == []
    ensures |path| - 1 <= Rank(path[0].vps) <= 2 * |path[0].vps|
    decreases |path|
  {
    RankBound(path[0].vps);
    if |path| > 1 {
      var s, s' := path[0], path[1];
      assert Step(s, s');
      var v: nat, a: Action :| Enabled(s, v, a) && s' == Apply(s, v, a);
      assert PcOk(s, s.vps[v]);
      StepKeepsInv(s, v, a);
      RankUpdate(s.vps, v, s'.vps[v]);
      var rest := path[1..];
      forall i | 0 <= i < |rest| - 1
        ensures Step(rest[i], rest[i + 1])
      {
        assert Step(path[i + 1], path[i + 2]);
      }
      ShutdownIsShort(rest);
    }
  }

  // ---------------------------------------------------------------- progress

  function PcWork(p: Pc): nat
  {
    match p
    case AtTop => 1
    case Busy(_) => 3
    case Pushing => 2
    case Waiting => 0
    case Woken => 2
    case Gone => 0
  }

  function VpsWork(vps: seq<Pc>): nat
  {
    if vps == [] then 0 else VpsWork(vps[..|vps| - 1]) + PcWork(vps[|vps| - 1])
  }

  /** A bound on the steps that are left if no task is pushed and nobody wakes spuriously. */
  function Work(s: State): nat
  {
    3 * |s.tasks| + VpsWork(s.vps) + if s.finished then 0 else 2 * |s.vps| + 1
  }

  lemma {:induction false} WorkUpdate(vps: seq<Pc>, v: nat, p: Pc)
    requires v < |vps|
    ensures VpsWork(vps[v := p]) == VpsWork(vps) + PcWork(p) - PcWork(vps[v])
    decreases |vps|
  {
    var n := |vps| - 1;
    if v == n {
      assert vps[v := p][..n] == vps[..n];
    } else {
      assert vps[v := p][..n] == vps[..n][v := p];
      WorkUpdate(vps[..n], v, p);
    }
  }

  lemma {:induction false} WorkBroadcast(vps: seq<Pc>)
    ensures VpsWork(vps) <= VpsWork(Broadcast(vps)) <= VpsWork(vps) + 2 * |vps|
    decreases |vps|
  {
    if vps != [] {
      var n := |vps| - 1;
      assert Broadcast(vps)[..n] == Broadcast(vps[..n]);
      WorkBroadcast(vps[..n]);
    }
  }

  /** What a step can add. */
  function Allowance(n: nat, a: Action): nat
  {
    match a
    case Push(_) => 2 * n + 2
    case Spurious => 2
    case _ => 0
  }

  /** No step but a push and a spurious wakeup leaves as much to do as there was. */
  lemma StepWorks(s: State, v: nat, a: Action)
    requires Inv(s) && Enabled(s, v, a)
    ensures if a.Push? || a.Spurious? then Work(Apply(s, v, a)) <= Work(s) + Allowance(|s.vps|, a)
            else Work(Apply(s, v, a)) < Work(s)
  {
    var s' := Apply(s, v, a);
    WorkBroadcast(s.vps);
    if a.Push? && s.waiting > 0 {
      WorkUpdate(Broadcast(s.vps), v, AtTop);
    } else {
      WorkUpdate(s.vps, v, s'.vps[v]);
    }
  }

  function Allowed(n: nat, actions: seq<Action>): nat
  {
    if actions == [] then 0
    else Allowed(n, actions[1..]) + Allowance(n, actions[0])
         + if actions[0].Push? || actions[0].Spurious? then 1 else 0
  }

  ghost predicate StepBy(s: State, v: nat, a: Action, s': State)
  {
    Enabled(s, v, a) && s' == Apply(s, v, a)
  }

  ghost predicate Follows(path: seq<State>, vps: seq<nat>, actions: seq<Action>)
  {
    && |path| == |actions| + 1 && |vps| == |actions|
    && forall i :: 0 <= i < |actions| ==> StepBy(path[i], vps[i], actions[i], path[i + 1])
  }

  /** The program cannot go on for ever by itself: with no more than so many pushes and spurious
      wakeups a path has no more than so many steps. */
  lemma {:induction false} OnlyPushesKeepItGoing(path: seq<State>, vps: seq<nat>, actions: seq<Action>)
    requires Follows(path, vps, actions) && Inv(path[0])
    ensures |actions| <= Work(path[0]) + Allowed(|path[0].vps|, actions)
    decreases |path|
  {
    if actions != [] {
      assert StepBy(path[0], vps[0], actions[0], path[1]);
      StepKeepsInv(path[0], vps[0], actions[0]);
      StepWorks(path[0], vps[0], actions[0]);
      var rest, vs, acts := path[1..], vps[1..], actions[1..];
      forall i | 0 <= i < |acts|
        ensures StepBy(rest[i], vs[i], acts[i], rest[i + 1])
      {
        assert StepBy(path[i + 1], vps[i + 1], actions[i + 1], path[i + 2]);
      }
      OnlyPushesKeepItGoing(rest, vs, acts);
    }
  }

  // ---------------------------------------------------------------- the critical sections

  /** The shared variables, and where each VP is.  Every method is one critical section;
      `pcs[v]` says where the section leaves the VP that executes it. */
  class Shared {
    var taskList: seq<int>
    var vpsWaiting: nat
    var programFinished: bool
    var pcs: seq<Pc>
    ghost var listed: seq<int>
    ghost var taken: seq<int>
    ghost var ended: seq<int>

    ghost function Snapshot(): State
      reads this
    {
      State(pcs, taskList, vpsWaiting, programFinished, listed, taken, ended)
    }

    constructor (numVps: nat, tasks: seq<int>)
      ensures Snapshot() == Initial(numVps, tasks)
    {
      taskList, vpsWaiting, programFinished := tasks, 0, false;
      pcs := seq(numVps, _ => AtTop);
      listed, taken, ended := tasks, [], [];
    }

    method GetTask() returns (task: int)
      modifies this`taskList
      ensures old(taskList) == [] ==> task == 0 && taskList == []
      ensures old(taskList) != [] ==> task == old(taskList)[0] && taskList == old(taskList)[1..]
    {
      task := 0;
      if taskList != [] {
        task := taskList[0];
        taskList := taskList[1..];
      }
    }

    method SignalAll()
      modifies this`pcs
      ensures pcs == Broadcast(old(pcs))
    {
      pcs := Broadcast(pcs);
    }

    /** One turn of the loop of vp_func up to the unlock or the wait. */
    method Turn(v: nat)
      requires v < |pcs| && pcs[v].AtTop?
      modifies this`taskList, this`vpsWaiting, this`programFinished, this`pcs, this`taken
      ensures Snapshot() == Apply(old(Snapshot()), v, Enter)
    {
      if programFinished {
        pcs := pcs[v := Gone];
      } else {
        var task := GetTask();
        if task != 0 {
          pcs := pcs[v := Busy(task)];
          taken := taken + [task];
        } else {
          vpsWaiting := vpsWaiting + 1;
          if vpsWaiting == |pcs| {
            programFinished := true;
            SignalAll();
          } else {
            pcs := pcs[v := Waiting];
          }
        }
      }
    }

    /** The end of a task, up to the test of its cost in update_graph. */
    method EndOfTask(v: nat)
      requires v < |pcs| && pcs[v].Busy?
      modifies this`pcs, this`ended
      ensures Snapshot() == Apply(old(Snapshot()), v, EndTask)
      ensures pcs == old(pcs)[v := if old(pcs)[v] == Busy(5) then Pushing else AtTop]
    {
      var task := pcs[v].task;
      ended := ended + [task];
      pcs := pcs[v := if task == 5 then Pushing else AtTop];
    }

    /** update_graph after a task of cost 5. */
    method UpdateGraph(v: nat, newTask: int)
      requires v < |pcs| && pcs[v].Pushing? && IsTask(newTask)
      modifies this
      ensures Snapshot() == Apply(old(Snapshot()), v, Push(newTask))
    {
      taskList := taskList + [newTask];
      listed := listed + [newTask];
      if vpsWaiting > 0 {
        SignalAll();
      }
      pcs := pcs[v := AtTop];
    }

    /** The rest of the turn of a VP that comes back from the wait. */
    method AfterWait(v: nat)
      requires v < |pcs| && pcs[v].Woken? && vpsWaiting > 0
      modifies this`vpsWaiting, this`pcs
      ensures Snapshot() == Apply(old(Snapshot()), v, Wake)
    {
      vpsWaiting := vpsWaiting - 1;
      pcs := pcs[v := AtTop];
    }
  }
}
