/** Join counting: any number of threads join one job while another runs it.  Each access
    to the job's memory is one step; the interleaving is arbitrary. */
module Joins {
  import opened Scheduler

  /** Where a joiner is inside join_job. */
  datatype JoinerPc =
    | Testing                    // about to test for Finished
    | Fetching                   // about to read the result
    | Counting(value: int)       // about to decrement the join counter
    | Asking(value: int)         // saw zero, about to read `smart`
    | Deleting(value: int)       // about to delete the job
    | Through(value: int)

  /** Where the VP that runs the job is inside AnahyJob::run. */
  datatype RunnerPc = InFunction | StoringState | Away

  /** The job and everybody who uses it.
      `deletions` counts the deletes, `dangling` records an access after a delete. */
  datatype JoinedJob = JoinedJob(
    runner: RunnerPc, state: JobState, result: int, counter: nat, smart: bool,
    joiners: seq<JoinerPc>, deletions: nat, dangling: bool)

  const SHORT: nat := 65536

  /** `_join_counter` is an unsigned short. */
  type Short = c: nat | c < SHORT

  function Decremented(c: nat): Short
  {
    (c + SHORT - 1) % SHORT
  }

  function Fresh(k: nat, m: nat, smart: bool): JoinedJob
  {
    JoinedJob(InFunction, Running, 0, k, smart, seq(m, _ => Testing), 0, false)
  }

  /** An access to the job's memory. */
  function Touch(s: JoinedJob): JoinedJob
  {
    s.(dangling := s.dangling || s.deletions > 0)
  }

  predicate CanMove(s: JoinedJob, i: nat)
  {
    i < |s.joiners| && !s.joiners[i].Through?
  }

  function Move(s: JoinedJob, i: nat): JoinedJob
    requires CanMove(s, i)
  {
    match s.joiners[i]
    case Testing => if s.state == Finished then Touch(s).(joiners := s.joiners[i := Fetching]) else Touch(s)
    case Fetching => Touch(s).(joiners := s.joiners[i := Counting(s.result)])
    case Counting(x) =>
      var left := Decremented(s.counter);
      Touch(s).(counter := left, joiners := s.joiners[i := if left == 0 then Asking(x) else Through(x)])
    case Asking(x) => Touch(s).(joiners := s.joiners[i := if s.smart then Deleting(x) else Through(x)])
    case Deleting(x) => Touch(s).(deletions := s.deletions + 1, joiners := s.joiners[i := Through(x)])
  }

  /** The runner stores what the function returned, then becomes Finished. */
  function RunnerMove(s: JoinedJob, returned: int): JoinedJob
    requires !s.runner.Away?
  {
    match s.runner
    case InFunction => Touch(s).(runner := StoringState, result := returned)
    case StoringState => Touch(s).(runner := Away, state := if s.state == Running then Finished else s.state)
  }

  ghost predicate Step(returned: int, s: JoinedJob, s': JoinedJob)
  {
    || (!s.runner.Away? && s' == RunnerMove(s, returned))
    || exists i: nat :: CanMove(s, i) && s' == Move(s, i)
  }

  /** A run with join counter `k`, `m` joiners and a function that returns `returned`. */
  ghost predicate IsRun(k: nat, m: nat, smart: bool, returned: int, run: seq<JoinedJob>)
  {
    && run != [] && run[0] == Fresh(k, m, smart)
    && forall i :: 0 <= i < |run| - 1 ==> Step(returned, run[i], run[i + 1])
  }

  // ---------------------------------------------------------------- the invariant

  predicate HasCounted(p: JoinerPc)
  {
    p.Asking? || p.Deleting? || p.Through?
  }

  function Counted(js: seq<JoinerPc>): (c: nat)
    ensures c <= |js|
  {
    if js == [] then 0 else Counted(js[..|js| - 1]) + if HasCounted(js[|js| - 1]) then 1 else 0
  }

  lemma {:induction false} CountedUpdate(js: seq<JoinerPc>, i: nat, p: JoinerPc)
    requires i < |js|
    ensures Counted(js[i := p]) + (if HasCounted(js[i]) then 1 else 0) == Counted(js) + if HasCounted(p) then 1 else 0
    decreases |js|
  {
    var n := |js| - 1;
    if i == n {
      assert js[i := p][..n] == js[..n];
    } else {
      assert js[i := p][..n] == js[..n][i := p];
      CountedUpdate(js[..n], i, p);
    }
  }

  lemma {:induction false} AllCounted(js: seq<JoinerPc>)
    ensures Counted(js) == |js| <==> forall i :: 0 <= i < |js| ==> HasCounted(js[i])
    ensures Counted(js) == 0 <==> forall i :: 0 <= i < |js| ==> !HasCounted(js[i])
    decreases |js|
  {
    if js != [] {
      AllCounted(js[..|js| - 1]);
    }
  }

  ghost predicate ValueOk(s: JoinedJob, returned: int, p: JoinerPc)
  {
    match p
    case Testing => true
    case Fetching => s.state == Finished
    case Counting(x) => s.state == Finished && x == returned
    case Asking(x) => s.state == Finished && x == returned
    case Deleting(x) => s.state == Finished && x == returned
    case Through(x) => s.state == Finished && x == returned
  }

  predicate Deciding(p: JoinerPc)
  {
    p.Asking? || p.Deleting?
  }

  ghost predicate OneDecider(js: seq<JoinerPc>)
  {
    forall i, j :: 0 <= i < |js| && 0 <= j < |js| && Deciding(js[i]) && Deciding(js[j]) ==> i == j
  }

  ghost predicate NoDecider(js: seq<JoinerPc>)
  {
    forall i :: 0 <= i < |js| ==> !Deciding(js[i])
  }

  ghost predicate Inv(k: nat, m: nat, smart: bool, returned: int, s: JoinedJob)
  {
    && |s.joiners| == m && s.smart == smart && !s.dangling
    && s.counter + Counted(s.joiners) == k
    && (forall i :: 0 <= i < m ==> ValueOk(s, returned, s.joiners[i]))
    && (s.state == Finished <==> s.runner.Away?) && (s.state == Running || s.state == Finished)
    && (!s.runner.InFunction? ==> s.result == returned)
    && OneDecider(s.joiners)
    && (s.counter > 0 ==> s.deletions == 0 && NoDecider(s.joiners))
    && (s.deletions > 0 ==> s.state == Finished && NoDecider(s.joiners))
    && s.deletions <= 1
    && (smart && s.counter == 0 && NoDecider(s.joiners) ==> s.deletions == 1)
    && (forall i :: 0 <= i < m && s.joiners[i].Deleting? ==> smart)
    && (s.deletions > 0 ==> smart)
  }

  lemma {:induction false} FreshInv(k: nat, m: nat, smart: bool, returned: int)
    requires 0 < k
    ensures Inv(k, m, smart, returned, Fresh(k, m, smart))
  {
    AllCounted(Fresh(k, m, smart).joiners);
  }

  lemma MoveKeepsInv(k: nat, m: nat, smart: bool, returned: int, s: JoinedJob, i: nat)
    requires m <= k < SHORT && Inv(k, m, smart, returned, s) && CanMove(s, i)
    ensures Inv(k, m, smart, returned, Move(s, i))
  {
    var s' := Move(s, i);
    AllCounted(s.joiners);
    if s'.joiners != s.joiners {
      CountedUpdate(s.joiners, i, s'.joiners[i]);
    }
    assert ValueOk(s, returned, s.joiners[i]);
    if s.joiners[i].Counting? {
      assert s.counter > 0;
      assert Decremented(s.counter) == s.counter - 1;
    }
  }

  lemma RunnerKeepsInv(k: nat, m: nat, smart: bool, returned: int, s: JoinedJob)
    requires m <= k < SHORT && Inv(k, m, smart, returned, s) && !s.runner.Away?
    ensures Inv(k, m, smart, returned, RunnerMove(s, returned))
  {
    forall i | 0 <= i < m
      ensures ValueOk(RunnerMove(s, returned), returned, s.joiners[i])
    {
      assert ValueOk(s, returned, s.joiners[i]);
    }
  }

  lemma {:induction false} RunInv(k: nat, m: nat, smart: bool, returned: int, run: seq<JoinedJob>)
    requires 0 < k < SHORT && m <= k && IsRun(k, m, smart, returned, run)
    ensures Inv(k, m, smart, returned, Last(run))
    decreases |run|
  {
    if |run| == 1 {
      FreshInv(k, m, smart, returned);
    } else {
      var before := Pop(run);
      forall i | 0 <= i < |before| - 1
        ensures Step(returned, before[i], before[i + 1])
      {
        assert Step(returned, run[i], run[i + 1]);
      }
      RunInv(k, m, smart, returned, before);
      var s, s' := Last(before), Last(run);
      assert Step(returned, run[|run| - 2], run[|run| - 1]);
      if !s.runner.Away? && s' == RunnerMove(s, returned) {
        RunnerKeepsInv(k, m, smart, returned, s);
      } else {
        var i: nat :| CanMove(s, i) && s' == Move(s, i);
        MoveKeepsInv(k, m, smart, returned, s, i);
      }
    }
  }

  // ---------------------------------------------------------------- results

  /** With at most as many joiners as the counter says, in every interleaving: nobody
      touches the job after a delete, it is deleted at most once, and every join that
      has returned has the value the job's function returned. */
  lemma JoinsAreSafe(k: nat, m: nat, smart: bool, returned: int, run: seq<JoinedJob>)
    requires 0 < k < SHORT && m <= k && IsRun(k, m, smart, returned, run)
    ensures !Last(run).dangling && Last(run).deletions <= 1
    ensures |Last(run).joiners| == m
    ensures forall i :: 0 <= i < m && Last(run).joiners[i].Through? ==> Last(run).joiners[i].value == returned
  {
    RunInv(k, m, smart, returned, run);
    forall i | 0 <= i < m && Last(run).joiners[i].Through?
      ensures Last(run).joiners[i].value == returned
    {
      assert ValueOk(Last(run), returned, Last(run).joiners[i]);
    }
  }

  /** Once all joins have returned, the job has been deleted exactly if it is smart and was
      joined as often as its counter said. */
  lemma ReclaimedWhenAllJoined(k: nat, m: nat, smart: bool, returned: int, run: seq<JoinedJob>)
    requires 0 < k < SHORT && m <= k && IsRun(k, m, smart, returned, run)
    requires forall i :: 0 <= i < |Last(run).joiners| ==> Last(run).joiners[i].Through?
    ensures Last(run).deletions == if smart && m == k then 1 else 0
  {
    RunInv(k, m, smart, returned, run);
    AllCounted(Last(run).joiners);
  }

  // ---------------------------------------------------------------- too many joiners

  ghost predicate Reachable(k: nat, m: nat, smart: bool, returned: int, s: JoinedJob)
  {
    exists run :: IsRun(k, m, smart, returned, run) && Last(run) == s
  }

  lemma Then(k: nat, m: nat, smart: bool, returned: int, s: JoinedJob, s': JoinedJob)
    requires Reachable(k, m, smart, returned, s) && Step(returned, s, s')
    ensures Reachable(k, m, smart, returned, s')
  {
    var run :| IsRun(k, m, smart, returned, run) && Last(run) == s;
    var longer := run + [s'];
    forall i | 0 <= i < |longer| - 1
      ensures Step(returned, longer[i], longer[i + 1])
    {
      if i < |run| - 1 {
        assert Step(returned, run[i], run[i + 1]);
      }
    }
    assert IsRun(k, m, smart, returned, longer) && Last(longer) == s';
  }

  /** The job is Finished, and the first `i` joins have returned one after the other. */
  function AfterJoins(k: nat, m: nat, returned: int, i: nat): JoinedJob
    requires i <= k && i <= m
  {
    JoinedJob(Away, Finished, returned, k - i, true,
           seq(m, j => if j < i then Through(returned) else Testing), 0, false)
  }

  /** Joiner `i` tests, fetches and counts. */
  lemma OneMoreJoin(k: nat, m: nat, returned: int, i: nat)
    requires k < SHORT && i < k && i < m
    requires Reachable(k, m, true, returned, AfterJoins(k, m, returned, i))
    ensures var s := AfterJoins(k, m, returned, i);
            Reachable(k, m, true, returned,
                      s.(counter := k - i - 1,
                        joiners := s.joiners[i := if k - i == 1 then Asking(returned) else Through(returned)]))
  {
    var s := AfterJoins(k, m, returned, i);
    var s1 := s.(joiners := s.joiners[i := Fetching]);
    assert Move(s, i) == s1;
    Then(k, m, true, returned, s, s1);
    var s2 := s.(joiners := s.joiners[i := Counting(returned)]);
    assert s1.joiners[i := Counting(returned)] == s2.joiners;
    assert Move(s1, i) == s2;
    Then(k, m, true, returned, s1, s2);
    assert Decremented(k - i) == k - i - 1;
    var s3 := Move(s2, i);
    assert s2.joiners[i := s3.joiners[i]] == s.joiners[i := s3.joiners[i]];
    Then(k, m, true, returned, s2, s3);
  }

  lemma {:induction false} AfterJoinsReachable(k: nat, m: nat, returned: int, i: nat)
    requires 0 < k < SHORT && k < m && i < k
    ensures Reachable(k, m, true, returned, AfterJoins(k, m, returned, i))
  {
    if i == 0 {
      var s := Fresh(k, m, true);
      assert IsRun(k, m, true, returned, [s]) && Last([s]) == s;
      var s1 := RunnerMove(s, returned);
      Then(k, m, true, returned, s, s1);
      Then(k, m, true, returned, s1, RunnerMove(s1, returned));
      assert RunnerMove(s1, returned) == AfterJoins(k, m, returned, 0);
    } else {
      AfterJoinsReachable(k, m, returned, i - 1);
      OneMoreJoin(k, m, returned, i - 1);
      var s := AfterJoins(k, m, returned, i - 1);
      assert s.joiners[i - 1 := Through(returned)] == AfterJoins(k, m, returned, i).joiners;
    }
  }

  /** With one joiner more than the counter says, a smart job can be touched after it has
      been deleted. */
  lemma TooManyJoinersDangle(k: nat, m: nat, returned: int) returns (s: JoinedJob)
    requires 0 < k < SHORT && k < m
    ensures Reachable(k, m, true, returned, s) && s.dangling
  {
    AfterJoinsReachable(k, m, returned, k - 1);
    OneMoreJoin(k, m, returned, k - 1);
    var s0 := AfterJoins(k, m, returned, k - 1);
    var s1 := s0.(counter := 0, joiners := s0.joiners[k - 1 := Asking(returned)]);
    var s2 := Move(s1, k - 1);
    Then(k, m, true, returned, s1, s2);
    var s3 := Move(s2, k - 1);
    Then(k, m, true, returned, s2, s3);
    assert s3.joiners[k].Testing?;
    s := Move(s3, k);
    Then(k, m, true, returned, s3, s);
  }

  /** For smart jobs, setting the join counter to at least the number of joiners is exactly
      what keeps every interleaving safe. */
  lemma SafeIffCounted(k: nat, m: nat, returned: int)
    requires 0 < k < SHORT
    ensures (forall s :: Reachable(k, m, true, returned, s) ==> !s.dangling) <==> m <= k
  {
    if m <= k {
      forall s | Reachable(k, m, true, returned, s)
        ensures !s.dangling
      {
        var run :| IsRun(k, m, true, returned, run) && Last(run) == s;
        JoinsAreSafe(k, m, true, returned, run);
      }
    } else {
      var s := TooManyJoinersDangle(k, m, returned);
    }
  }
}
