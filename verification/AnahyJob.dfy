/** The fields of a job and the operations on them that the scheduler uses. */
module AnahyJob {
  import opened Scheduler
  import Joins

  class AnahyJob {
    var id: nat
    var parent: AnahyJob?
    var state: JobState
    var result: int
    var joinCounter: Joins.Short
    var smart: bool

    /** `init`: a fresh job is Ready and expects one join. */
    constructor (smart: bool)
      ensures state == Ready && joinCounter == 1 && this.smart == smart && parent == null
    {
      this.smart := smart;
      id, parent, state, result, joinCounter := 0, null, Ready, 0, 1;
    }

    /** The source asserts that the new counter is positive. */
    method SetJoinCounter(n: Joins.Short)
      requires n > 0
      modifies this`joinCounter
      ensures joinCounter == n
    {
      joinCounter := n;
    }

    method CompareAndSwapState(target: JobState, value: JobState) returns (swapped: bool)
      modifies this`state
      ensures swapped == (old(state) == target)
      ensures state == if swapped then value else old(state)
    {
      swapped := state == target;
      if swapped {
        state := value;
      }
    }

    /** The new value of the counter, which wraps around below zero. */
    method DecrementAndFetchJoinCounter() returns (left: Joins.Short)
      modifies this`joinCounter
      ensures left == joinCounter
      ensures old(joinCounter) > 0 ==> left == old(joinCounter) - 1
      ensures old(joinCounter) == 0 ==> left == 65535
    {
      joinCounter := Joins.Decremented(joinCounter);
      left := joinCounter;
    }

    /** The job as its runner and its joiners see it in the Joins module. */
    ghost function Image(s: Joins.JoinedJob): Joins.JoinedJob
      reads this
    {
      s.(state := state, result := result, counter := joinCounter, smart := smart)
    }

    /** The end of `run`: store what the function returned, then try to become Finished.  A
        job that was never claimed stays Ready.  These are the two moves of the runner. */
    method Finish(returned: int, ghost s: Joins.JoinedJob)
      requires s.runner.InFunction?
      modifies this`result, this`state
      ensures result == returned
      ensures state == if old(state) == Running then Finished else old(state)
      ensures var t := Joins.RunnerMove(Joins.RunnerMove(old(Image(s)), returned), returned);
              result == t.result && state == t.state && Image(t) == t
    {
      result := returned;
      var swapped := CompareAndSwapState(Running, Finished);
    }

    /** The end of `join_job`: fetch the result, then count the join.  The caller deletes
        the job if `reclaim`.  These are two moves of joiner `i`. */
    method CountJoin(ghost s: Joins.JoinedJob, ghost i: nat) returns (value: int, reclaim: bool)
      requires i < |s.joiners| && s.joiners[i].Fetching?
      modifies this`joinCounter
      ensures value == result && joinCounter == Joins.Decremented(old(joinCounter))
      ensures reclaim <==> old(joinCounter) == 1 && smart
      ensures var t := Joins.Move(Joins.Move(old(Image(s)), i), i);
              && Image(t) == t && (reclaim <==> t.joiners[i].Asking? && t.smart)
              && t.joiners[i] == if joinCounter == 0 then Joins.Asking(value) else Joins.Through(value)
    {
      value := result;
      var left := DecrementAndFetchJoinCounter();
      reclaim := left == 0 && smart;
    }
  }
}
