/** A VP with nothing of its own looks at every other list, in order, and takes the first job that
    it finds. */
module SchedulerSweep {
  import opened Options
  import opened HeapOrder
  import opened Scheduler
  import opened SchedulerJobSteps
  import opened SchedulerProgress

  // ---------------------------------------------------------------- while the others stand still

  /** The list of VP x is the first, from VP i on, in which VP v can find a job. */
  ghost predicate FirstFull(s: State, v: nat, i: nat, x: nat)
    requires x < |s.vps|
  {
    && i <= x && x != v && s.vps[x].list != []
    && forall y :: i <= y < x && y != v ==> s.vps[y].list == []
  }

  /** VP v holds the first job of the heap that VP x had in s, and x has the rest. */
  ghost predicate HasStolen(s: State, s': State, v: nat, x: nat)
  {
    && v < |s.vps| == |s'.vps| && x < |s.vps| && x != v && s.vps[x].list != []
    && s'.vps[v].pc == Stolen(s.vps[x].list[0].job)
    && s'.vps[x] == s.vps[x].(list := AfterExtractMin(s.vps[x].list))
  }

  lemma SoloOnce(s: State, v: nat, k: nat)
    requires v < |s.vps| && Enabled(s, v, Advance)
    ensures Solo(s, v, k + 1) == Solo(DoAdvance(s, v), v, k)
  {
  }

  /** From the middle of a sweep. */
  lemma {:induction false} SweepSteals(s: State, v: nat, i: nat, x: nat)
    requires v < |s.vps| && s.vps[v].pc == AtSteal(i) && x < |s.vps| && FirstFull(s, v, i, x)
    ensures HasStolen(s, Solo(s, v, x - i + 1), v, x)
    decreases x - i
  {
    var s' := DoAdvance(s, v);
    SoloOnce(s, v, x - i);
    if i < x {
      SweepSteals(s', v, i + 1, x);
    } else {
      assert Solo(s', v, 0) == s';
    }
  }

  /** From the run loop, when v has seen its own list empty and somebody else is still at work. */
  lemma IdleVpSteals(s: State, v: nat, x: nat)
    requires v < |s.vps| && s.vps[v].pc.AtCount? && s.idle + 1 < |s.vps|
    requires x < |s.vps| && FirstFull(s, v, 0, x)
    ensures HasStolen(s, Solo(s, v, x + 2), v, x)
  {
    SoloOnce(s, v, x + 1);
    SweepSteals(DoAdvance(s, v), v, 0, x);
  }

  /** From inside a join, when v's own list is empty. */
  lemma JoiningVpSteals(s: State, v: nat, x: nat)
    requires v < |s.vps| && s.vps[v].pc.AtPop? && s.vps[v].frames != [] && s.vps[v].list == []
    requires x < |s.vps| && FirstFull(s, v, 0, x)
    ensures HasStolen(s, Solo(s, v, x + 2), v, x)
  {
    SoloOnce(s, v, x + 1);
    SweepSteals(DoAdvance(s, v), v, 0, x);
  }

  lemma {:induction false} FindFull(s: State, v: nat, i: nat, w: nat) returns (x: nat)
    requires i <= w < |s.vps| && w != v && s.vps[w].list != []
    ensures x <= w && FirstFull(s, v, i, x)
    decreases w - i
  {
    if i != v && s.vps[i].list != [] {
      x := i;
    } else {
      x := FindFull(s, v, i + 1, w);
    }
  }

  /** VP v is out of work: it is about to count itself idle while somebody else is at work, or it is
      in a join for an unfinished job and its own list is empty. */
  ghost predicate OutOfWork(s: State, v: nat)
    requires v < |s.vps|
  {
    var p := s.vps[v];
    || (p.pc.AtCount? && s.idle + 1 < |s.vps|)
    || (p.pc.AtPop? && p.frames != [] && p.list == [])
    || (p.pc.AtCheck? && p.frames != [] && Last(p.frames).Joining? && p.list == []
        && !IsFinished(s.jobs, Last(p.frames).target))
  }

  /** As soon as any other list holds a job, a VP that is out of work gets one within `|s.vps| + 2`
      actions of its own. */
  lemma OutOfWorkSteals(s: State, v: nat, w: nat) returns (k: nat)
    requires v < |s.vps| && OutOfWork(s, v)
    requires w < |s.vps| && w != v && s.vps[w].list != []
    ensures k <= |s.vps| + 2 && |Solo(s, v, k).vps| == |s.vps| && Solo(s, v, k).vps[v].pc.Stolen?
    ensures s.vps[v].pc.AtCount? ==> k <= |s.vps| + 1
  {
    var x := FindFull(s, v, 0, w);
    k := x + 2;
    match s.vps[v].pc
    case AtCount => IdleVpSteals(s, v, x);
    case AtPop => JoiningVpSteals(s, v, x);
    case AtCheck =>
      SoloOnce(s, v, k);
      JoiningVpSteals(DoAdvance(s, v), v, x);
      k := x + 3;
  }

  /** At the end of a sweep, whatever the lists hold by then: a VP in the run loop takes itself off
      the counter and looks at its own list, one in a join makes its suspended job current again and
      tests the target. */
  lemma AfterVainSweep(s: State, v: nat, k: nat)
    requires v < |s.vps| && s.vps[v].pc == AtSteal(k) && k >= |s.vps|
    ensures var p, s' := s.vps[v], Solo(s, v, if s.vps[v].frames == [] then 2 else 1);
            && |s'.vps| == |s.vps|
            && (p.frames == [] ==> s'.vps[v] == p.(pc := AtPop) && s'.idle == s.idle - 1)
            && (p.frames != [] && p.context != [] ==>
                  s'.vps[v] == p.(current := Last(p.context), context := Pop(p.context), pc := AtCheck))
  {
    SoloOnce(s, v, 0);
    var t := DoAdvance(s, v);
    assert Solo(t, v, 0) == t;
    if s.vps[v].frames == [] {
      SoloOnce(s, v, 1);
      SoloOnce(t, v, 0);
      assert Solo(DoAdvance(t, v), v, 0) == DoAdvance(t, v);
    }
  }

  // ---------------------------------------------------------------- the own list first

  /** A VP counts itself idle only right after it found its own list empty. */
  lemma CountsAfterOwnList(s: State, s': State, v: nat)
    requires Step(s, s') && v < |s'.vps| && s'.vps[v].pc.AtCount?
    ensures |s'.vps| == |s.vps|
    ensures s.vps[v].pc.AtCount? || (s.vps[v].pc.AtPop? && s.vps[v].frames == [] && s.vps[v].list == [])
  {
    var w: nat, a: Action :| w < |s.vps| && Enabled(s, w, a) && s' == Apply(s, w, a);
    StepKeepsVps(s, w, a);
    if w != v {
      OtherVp(s, w, a, v);
    }
  }

  lemma RunPrefix(n: nat, run: seq<State>, m: nat)
    requires IsRun(n, run) && 0 < m <= |run|
    ensures IsRun(n, run[..m])
  {
    hide Initial, Step;
    var before := run[..m];
    forall j | 0 <= j < |before| - 1
      ensures Step(before[j], before[j + 1])
    {
      assert Step(run[j], run[j + 1]);
    }
  }

  lemma NotAtFirst(n: nat, run: seq<State>, v: nat)
    requires IsRun(n, run) && v < |run[|run| - 1].vps| && run[|run| - 1].vps[v].pc.AtCount?
    ensures |run| > 1 && Step(run[|run| - 2], run[|run| - 1])
  {
    hide Step;
  }

  /** In every run, and from its first step on: before a VP counts itself idle it has looked at its
      own list and found it empty, and since then it has done nothing else. */
  lemma {:induction false} OwnListFirst(n: nat, run: seq<State>, v: nat) returns (i: nat)
    requires IsRun(n, run) && v < |run[|run| - 1].vps| && run[|run| - 1].vps[v].pc.AtCount?
    ensures i < |run| - 1
    ensures v < |run[i].vps| && run[i].vps[v].pc.AtPop? && run[i].vps[v].frames == [] && run[i].vps[v].list == []
    ensures forall k :: i < k < |run| ==> v < |run[k].vps| && run[k].vps[v].pc.AtCount?
    decreases |run|
  {
    hide *;
    var m := |run| - 1;
    NotAtFirst(n, run, v);
    CountsAfterOwnList(run[m - 1], run[m], v);
    if run[m - 1].vps[v].pc.AtCount? {
      RunPrefix(n, run, m);
      i := OwnListFirst(n, run[..m], v);
    } else {
      i := m - 1;
    }
  }

  // ---------------------------------------------------------------- while the others go on

  /** Along the path VP v starts to look for a job of the others, and finds none up to list k. */
  ghost predicate SweptUpTo(path: seq<State>, v: nat, k: nat)
  {
    && |path| >= 2 && IsPath(path)
    && (forall i :: 0 <= i < |path| ==> v < |path[i].vps|)
    && (path[0].vps[v].pc.AtCount? || (path[0].vps[v].pc.AtPop? && path[0].vps[v].frames != []))
    && (forall i :: 0 < i < |path| ==> path[i].vps[v].pc.AtSteal?)
    && path[|path| - 1].vps[v].pc == AtSteal(k)
  }

  /** One step of anybody, as VP v in a sweep sees it. */
  lemma SweepStep(s: State, s': State, v: nat)
    requires Step(s, s') && v < |s.vps| && v < |s'.vps| && s'.vps[v].pc.AtSteal?
    ensures |s'.vps| == |s.vps|
    ensures s.vps[v].pc.AtCount? || s.vps[v].pc.AtPop? ==> s'.vps[v].pc == AtSteal(0)
    ensures s.vps[v].pc.AtSteal? ==>
              var k := s.vps[v].pc.victim;
              || s'.vps[v].pc == AtSteal(k)
              || (s'.vps[v].pc == AtSteal(k + 1) && k < |s.vps| && (k == v || s.vps[k].list == []))
  {
    var w: nat, a: Action :| w < |s.vps| && Enabled(s, w, a) && s' == Apply(s, w, a);
    if w != v {
      OtherVp(s, w, a, v);
    }
  }

  /** A sweep that has come to list k has found each list before it empty when it looked. */
  lemma {:induction false} SweepSawEmpty(path: seq<State>, v: nat, k: nat, w: nat) returns (i: nat)
    requires SweptUpTo(path, v, k) && w < k && w != v
    ensures i < |path| && w < |path[i].vps| && path[i].vps[w].list == []
    decreases |path|
  {
    var n := |path| - 1;
    assert Step(path[n - 1], path[n]);
    SweepStep(path[n - 1], path[n], v);
    if path[n - 1].vps[v].pc == AtSteal(w) && path[n].vps[v].pc == AtSteal(w + 1) {
      i := n - 1;
    } else {
      var before := path[..n];
      assert IsPath(before) by {
        forall j | 0 <= j < |before| - 1
          ensures Step(before[j], before[j + 1])
        {
          assert Step(path[j], path[j + 1]);
        }
      }
      assert n - 1 > 0;
      i := SweepSawEmpty(before, v, path[n - 1].vps[v].pc.victim, w);
    }
  }

  /** A sweep ends empty-handed only when every other list was empty at some moment since VP v
      started it, whatever the others did meanwhile. */
  lemma VainSweepSawAllEmpty(path: seq<State>, v: nat, k: nat, s': State, w: nat) returns (i: nat)
    requires SweptUpTo(path, v, k) && Step(path[|path| - 1], s') && v < |s'.vps|
    requires s'.vps[v].pc == AtUncount(None) || s'.vps[v].pc.AtCheck?
    requires w < |path[|path| - 1].vps| && w != v
    ensures i < |path| && w < |path[i].vps| && path[i].vps[w].list == []
  {
    var s := path[|path| - 1];
    var x: nat, a: Action :| x < |s.vps| && Enabled(s, x, a) && s' == Apply(s, x, a);
    if x != v {
      OtherVp(s, x, a, v);
    }
    assert k >= |s.vps|;
    i := SweepSawEmpty(path, v, k, w);
  }
}
