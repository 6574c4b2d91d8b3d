/** Shutdown never gets stuck: once the main program is in terminate and every listed job is
    Finished, the VPs can all leave, whatever they are doing. */
module SchedulerShutdown {
  import opened Options
  import opened Scheduler
  import opened SchedulerInvariant
  import opened SchedulerResults
  import opened SchedulerJobSteps

  // ---------------------------------------------------------------- continuations

  ghost predicate Leads(s: State, s': State)
  {
    exists path :: path != [] && IsPath(path) && path[0] == s && Last(path) == s'
  }

  lemma LeadsBy(s: State, s': State, v: nat, a: Action)
    requires Leads(s, s') && v < |s'.vps| && Enabled(s', v, a)
    ensures Leads(s, Apply(s', v, a))
  {
    var path :| path != [] && IsPath(path) && path[0] == s && Last(path) == s';
    var t := Apply(s', v, a);
    var longer := path + [t];
    forall i | 0 <= i < |longer| - 1
      ensures Step(longer[i], longer[i + 1])
    {
      if i < |path| - 1 {
        assert Step(path[i], path[i + 1]);
      }
    }
    assert IsPath(longer) && longer[0] == s && Last(longer) == t;
  }

  lemma LeadsTo(s: State, s': State, v: nat)
    requires Leads(s, s') && v < |s'.vps| && Enabled(s', v, Advance)
    ensures Leads(s, DoAdvance(s', v))
  {
    LeadsBy(s, s', v, Advance);
    assert Apply(s', v, Advance) == DoAdvance(s', v);
  }

  lemma LeadsNowhere(s: State)
    ensures Leads(s, s)
  {
    assert IsPath([s]) && Last([s]) == s;
  }

  // ---------------------------------------------------------------- idle machines

  /** A VP in the run loop with nothing to do. */
  ghost predicate QuietVp(p: Vp)
  {
    && p.list == [] && p.frames == []
    && (p.pc.AtPop? || p.pc.AtCount? || p.pc.AtSteal? || p.pc == AtUncount(None) || p.pc.Exited?)
  }

  ghost predicate Quiet(s: State)
  {
    && (forall v :: 0 <= v < |s.vps| ==> QuietVp(s.vps[v]))
    && s.idle == CountIdle(s.vps)
  }

  /** One action of a VP in a quiet machine keeps it quiet and concerns nobody else. */
  lemma QuietAdvance(s: State, v: nat)
    requires Quiet(s) && v < |s.vps| && !s.vps[v].pc.Exited?
    ensures Enabled(s, v, Advance) && Quiet(DoAdvance(s, v))
    ensures DoAdvance(s, v).vps == s.vps[v := DoAdvance(s, v).vps[v]]
    ensures var pc, pc' := s.vps[v].pc, DoAdvance(s, v).vps[v].pc;
            match pc
            case AtPop => pc' == AtCount
            case AtCount => pc' == if CountIdle(s.vps) + 1 == |s.vps| then Exited else AtSteal(0)
            case AtSteal(k) => pc' == if k < |s.vps| then AtSteal(k + 1) else AtUncount(None)
            case AtUncount(_) => pc' == AtPop
            case _ => true
  {
    assert QuietVp(s.vps[v]);
    if s.vps[v].pc.AtSteal? && s.vps[v].pc.victim < |s.vps| {
      assert QuietVp(s.vps[s.vps[v].pc.victim]);
    }
    CountUpdate(s.vps, v, DoAdvance(s, v).vps[v]);
  }

  ghost predicate OnlyMoved(s: State, s': State, v: nat)
  {
    v < |s.vps| == |s'.vps| && forall w :: 0 <= w < |s.vps| && w != v ==> s'.vps[w] == s.vps[w]
  }

  /** A VP that is not counted gets counted. */
  lemma ToCounted(s0: State, s: State, v: nat) returns (s': State)
    requires Leads(s0, s) && Quiet(s) && v < |s.vps| && !s.vps[v].pc.AtUncount?
    ensures Leads(s0, s') && Quiet(s') && OnlyMoved(s, s', v) && Counted(s'.vps[v])
    ensures CountIdle(s.vps) + (if Counted(s.vps[v]) then 0 else 1) == |s.vps| && !Counted(s.vps[v]) ==>
            s'.vps[v].pc.Exited?
  {
    s' := s;
    assert QuietVp(s.vps[v]);
    if s'.vps[v].pc.AtPop? {
      QuietAdvance(s', v);
      LeadsTo(s0, s', v);
      CountUpdate(s'.vps, v, DoAdvance(s', v).vps[v]);
      s' := DoAdvance(s', v);
    }
    if s'.vps[v].pc.AtCount? {
      QuietAdvance(s', v);
      LeadsTo(s0, s', v);
      s' := DoAdvance(s', v);
    }
  }

  /** A thief that finds nothing comes to the subtraction. */
  lemma ToUncount(s0: State, s: State, v: nat, k: nat) returns (s': State)
    requires Leads(s0, s) && Quiet(s) && v < |s.vps| && s.vps[v].pc == AtSteal(k)
    ensures Leads(s0, s') && Quiet(s') && OnlyMoved(s, s', v) && s'.vps[v].pc == AtUncount(None)
    decreases |s.vps| - k
  {
    QuietAdvance(s, v);
    LeadsTo(s0, s, v);
    s' := DoAdvance(s, v);
    if k < |s.vps| {
      s' := ToUncount(s0, s', v, k + 1);
    }
  }

  ghost predicate AllCounted(s: State)
  {
    forall v :: 0 <= v < |s.vps| ==> Counted(s.vps[v])
  }

  /** When all are counted, a VP that goes around the loop once more leaves. */
  lemma ToExit(s0: State, s: State, v: nat) returns (s': State)
    requires Leads(s0, s) && Quiet(s) && AllCounted(s) && v < |s.vps|
    ensures Leads(s0, s') && Quiet(s') && OnlyMoved(s, s', v) && AllCounted(s') && s'.vps[v].pc.Exited?
  {
    s' := s;
    assert QuietVp(s.vps[v]) && Counted(s.vps[v]);
    if !s.vps[v].pc.Exited? {
      if s.vps[v].pc.AtSteal? {
        s' := ToUncount(s0, s, v, s.vps[v].pc.victim);
      }
      var t := s';
      CountBound(t.vps);
      QuietAdvance(t, v);
      LeadsTo(s0, t, v);
      s' := DoAdvance(t, v);
      CountUpdate(t.vps, v, s'.vps[v]);
      s' := ToCounted(s0, s', v);
    }
  }

  lemma {:induction false} CountAll(s0: State, s: State, m: nat) returns (s': State)
    requires Leads(s0, s) && Quiet(s) && m <= |s.vps|
    ensures Leads(s0, s') && Quiet(s') && |s'.vps| == |s.vps|
    ensures forall v :: 0 <= v < m ==> Counted(s'.vps[v])
  {
    s' := s;
    if m > 0 {
      s' := CountAll(s0, s, m - 1);
      if !s'.vps[m - 1].pc.AtUncount? {
        s' := ToCounted(s0, s', m - 1);
      }
    }
  }

  lemma {:induction false} ExitAll(s0: State, s: State, m: nat) returns (s': State)
    requires Leads(s0, s) && Quiet(s) && AllCounted(s) && m <= |s.vps|
    ensures Leads(s0, s') && Quiet(s') && AllCounted(s') && |s'.vps| == |s.vps|
    ensures forall v :: 0 <= v < m ==> s'.vps[v].pc.Exited?
  {
    s' := s;
    if m > 0 {
      s' := ExitAll(s0, s, m - 1);
      s' := ToExit(s0, s', m - 1);
    }
  }

  /** At the bottom of a call stack is the main program or a job that is neither inlined nor
      Finished. */
  lemma BottomFrame(s: State, v: nat)
    requires Inv(s) && v < |s.vps|
    ensures s.vps[v].frames != [] ==>
              var f := s.vps[v].frames[0];
              || (f.MainCode? && v == 0)
              || (f.Body? && f.job in s.jobs && !s.jobs[f.job].inlined && !s.jobs[f.job].place.Gone?)
  {
    var p := s.vps[v];
    assert VpOk(s.jobs, v, p);
    if p.frames != [] {
      assert FrameFits(v, p.frames, 0) && p.frames[0] in p.frames;
      assert FrameOk(s.jobs, v, p.frames[0]);
    }
  }

  lemma QuietWhenFinished(n: nat, s: State)
    requires Reachable(n, s) && |s.vps| == n >= 1 && MainEnded(s)
    requires forall j :: j in s.jobs && !s.jobs[j].inlined ==> s.jobs[j].state == Finished
    ensures Quiet(s)
  {
    ReachableInv(n, s);
    forall j | j in s.jobs && !s.jobs[j].inlined
      ensures s.jobs[j].place.Gone?
    {
      assert PlaceOk(s.vps, j, s.jobs[j]);
    }
    forall v | 0 <= v < n
      ensures QuietVp(s.vps[v])
    {
      var p := s.vps[v];
      assert VpOk(s.jobs, v, p);
      assert p.list != [] ==> EntryOk(s.jobs, v, p.counter, p.list[0]);
      BottomFrame(s, v);
      assert p.list != [] ==> PlaceOk(s.vps, p.list[0].job, s.jobs[p.list[0].job]);
      assert InHand(p.pc).Some? ==> PlaceOk(s.vps, InHand(p.pc).value, s.jobs[InHand(p.pc).value]);
    }
  }

  /** From every reachable state in which the main program has ended and all jobs but the
      inlined ones, which never are, are Finished, some continuation lets every VP leave. */
  lemma ShutdownCanComplete(n: nat, s: State) returns (s': State)
    requires Reachable(n, s) && |s.vps| == n >= 1 && MainEnded(s)
    requires forall j :: j in s.jobs && !s.jobs[j].inlined ==> s.jobs[j].state == Finished
    ensures Leads(s, s') && |s'.vps| == n && forall v :: 0 <= v < n ==> s'.vps[v].pc.Exited?
  {
    QuietWhenFinished(n, s);
    LeadsNowhere(s);
    s' := CountAll(s, s, n);
    s' := ExitAll(s, s', n);
  }
}
