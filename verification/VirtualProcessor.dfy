/** The operations of one virtual processor on its own fields, and how they are the atomic
    steps of the Scheduler module under an abstraction of its objects. */
module VirtualProcessor {
  import opened Options
  import opened HeapOrder
  import opened HeapOperations
  import opened Scheduler
  import opened AnahyJob
  import H = SmartHeap
  import S = SmartStack

  lemma LeavesOnlyOld<T>(s: seq<Entry<T>>)
    requires s != []
    ensures forall e :: e in AfterExtractMin(s) ==> e in s
  {
    ExtractMinKeepsElements(s);
    forall e | e in AfterExtractMin(s)
      ensures e in s
    {
      assert e in multiset(s);
    }
  }

  // ---------------------------------------------------------------- abstraction

  function NameOf(job: AnahyJob?, name: AnahyJob? -> JobId): Option<JobId>
  {
    if job == null then None else Some(name(job))
  }

  function Names(jobs: seq<AnahyJob?>, name: AnahyJob? -> JobId): (r: seq<Option<JobId>>)
    ensures |r| == |jobs|
    ensures forall i :: 0 <= i < |jobs| ==> r[i] == NameOf(jobs[i], name)
  {
    seq(|jobs|, i requires 0 <= i < |jobs| => NameOf(jobs[i], name))
  }

  /** The VP of the transition system that the fields of a VirtualProcessor stand for; the call
      stack and the program counter are those of its thread. */
  function ImageOf(list: seq<Entry<AnahyJob?>>, counter: nat, current: AnahyJob?, context: seq<AnahyJob?>,
                 name: AnahyJob? -> JobId, frames: seq<Frame>, pc: Pc): Vp
  {
    Vp(Renamed(list, name), counter, NameOf(current, name), Names(context, name), frames, pc)
  }

  /** What ForkJob ensures of the fields is the step of fork_job on their image; if it asked for
      an inline call, the step also pushes the frame of that call. */
  lemma ForkJobIsFork(s: State, v: nat, job: AnahyJob, list: seq<Entry<AnahyJob?>>, counter: nat, current: AnahyJob?,
                      context: seq<AnahyJob?>, name: AnahyJob? -> JobId, frames: seq<Frame>)
    requires v < |s.vps| && s.vps[v] == ImageOf(list, counter, current, context, name, frames, User)
    requires frames != [] && forall e :: e in list ==> e.id < counter
    ensures var s', inline := DoFork(s, v, name(job)), |context| > INLINE_DEPTH;
            && s'.vps[v] == ImageOf(list + (if inline then [] else [Entry(counter, job)]), counter + 1, current,
                                    context, name, frames + (if inline then [Body(name(job), true)] else []), User)
            && s'.jobs[name(job)].id == counter && s'.jobs[name(job)].parent == NameOf(current, name)
  {
    var e: Entry<AnahyJob?> := Entry(counter, job);
    InsertOfLargestAppends(list, e);
    OperationsIgnoreNames(list, name, e);
    assert list + [] == list && frames + [] == frames;
  }

  /** What GetJob ensures is the pop of the own list, followed by the claim; an empty list leaves
      no current job. */
  lemma GetJobIsPop(s: State, v: nat, list: seq<Entry<AnahyJob?>>, counter: nat, current: AnahyJob?,
                    context: seq<AnahyJob?>, name: AnahyJob? -> JobId, frames: seq<Frame>)
    requires v < |s.vps| && s.vps[v] == ImageOf(list, counter, current, context, name, frames, AtPop)
    ensures DoPop(s, v).vps[v]
         == if list == []
            then ImageOf(list, counter, null, context, name, frames, if frames == [] then AtCount else AtSteal(0))
            else ImageOf(AfterExtractLast(list), counter, current, context, name, frames, Popped(name(Last(list).job)))
  {
    if list != [] {
      OperationsIgnoreNames(list, name, Last(list));
    }
  }

  /** What StealJob ensures of the victim's fields is the theft of the first job of its heap; from
      an empty heap nothing is taken. */
  lemma StealJobIsSteal(s: State, v: nat, k: nat, list: seq<Entry<AnahyJob?>>, counter: nat, current: AnahyJob?,
                        context: seq<AnahyJob?>, name: AnahyJob? -> JobId, frames: seq<Frame>, pc: Pc)
    requires v < |s.vps| && k < |s.vps| && v != k
    requires s.vps[k] == ImageOf(list, counter, current, context, name, frames, pc)
    ensures DoSteal(s, v, k).vps[k]
         == ImageOf(if list == [] then [] else AfterExtractMin(list), counter, current, context, name, frames, pc)
    ensures DoSteal(s, v, k).vps[v].pc == if list == [] then AtSteal(k + 1) else Stolen(name(list[0].job))
  {
    if list != [] {
      OperationsIgnoreNames(list, name, list[0]);
    }
  }

  /** What Suspend and Resume ensure is the first and the last action of a join that helps. */
  lemma SuspendAndResume(list: seq<Entry<AnahyJob?>>, counter: nat, current: AnahyJob?,
                         context: seq<AnahyJob?>, name: AnahyJob? -> JobId, frames: seq<Frame>, pc: Pc)
    ensures var p := ImageOf(list, counter, current, context, name, frames, pc);
            && p.(context := p.context + [p.current])
               == ImageOf(list, counter, current, context + [current], name, frames, pc)
            && (context != [] ==>
                  BackToCheck(p) == ImageOf(list, counter, Last(context), Pop(context), name, frames, AtCheck))
  {
    assert Names(context + [current], name) == Names(context, name) + [NameOf(current, name)];
    assert context != [] ==> Names(Pop(context), name) == Pop(Names(context, name));
  }

  // ---------------------------------------------------------------- the object

  class VirtualProcessor {
    const list: H.SmartHeap<AnahyJob?>
    const context: S.SmartStack<AnahyJob?>
    var counter: nat
    var current: AnahyJob?

    /** The list holds jobs under their current ids, all below the counter. */
    ghost predicate Valid()
      reads this, list, list.data, context, set e | list.Valid() && e in list.Contents() && e.job != null :: e.job
    {
      && list.Valid() && context.Valid()
      && forall e :: e in list.Contents() ==> e.job != null && e.job.id == e.id < counter
    }

    /** The VP of the transition system that this object stands for, with the call stack and the
        program counter of its thread; `name` numbers the jobs. */
    ghost function Image(name: AnahyJob? -> JobId, frames: seq<Frame>, pc: Pc): Vp
      requires list.Valid() && context.Valid()
      reads this, list, list.data, context, context.data
    {
      ImageOf(list.Contents(), counter, current, context.Contents(), name, frames, pc)
    }

    constructor ()
      ensures Valid() && list.Contents() == [] && context.Contents() == [] && counter == 0 && current == null
      ensures fresh(list) && fresh(list.data) && fresh(context) && fresh(context.data)
      ensures list.upper == 64 && context.upper == 1024
    {
      list := new H.SmartHeap(64);
      context := new S.SmartStack(1024);
      counter, current := 0, null;
    }

    /** fork_job up to the choice between running the job at once and listing it; together with
        the frame of an inline call it is the fork of VP v in the machine s. */
    method ForkJob(job: AnahyJob, ghost name: AnahyJob? -> JobId, ghost frames: seq<Frame>, ghost s: State,
                   ghost v: nat)
      returns (inline: bool)
      requires Valid() && forall e :: e in list.Contents() ==> e.job != job
      requires v < |s.vps| && frames != [] && s.vps[v] == Image(name, frames, User)
      modifies this`counter, list, list.data, job`parent, job`id
      ensures Valid()
      ensures job.parent == current && job.id == old(counter) && counter == old(counter) + 1
      ensures inline <==> |context.Contents()| > 10000
      ensures list.Contents() == old(list.Contents()) + if inline then [] else [Entry(job.id, job)]
      ensures list.data == old(list.data) || fresh(list.data)
      ensures Image(name, frames + (if inline then [Body(name(job), true)] else []), User)
           == DoFork(s, v, name(job)).vps[v]
      ensures DoFork(s, v, name(job)).jobs[name(job)].id == job.id
      ensures DoFork(s, v, name(job)).jobs[name(job)].parent == NameOf(job.parent, name)
    {
      hide DoFork, ImageOf, AfterInsert, SiftUp;
      ForkJobIsFork(s, v, job, list.Contents(), counter, current, context.Contents(), name, frames);
      ghost var before := list.Contents();
      job.parent := current;
      job.id := counter;
      counter := counter + 1;
      var depth := context.Size();
      inline := depth > INLINE_DEPTH;
      if inline {
        assert list.Contents() == before + [];
      } else {
        var e: Entry<AnahyJob?> := Entry(job.id, job);
        InsertOfLargestAppends(before, e);
        list.Insert(e);
        assert list.Contents() == before + [e];
      }
      assert forall e :: e in before ==> e.job != null && e.job != job && e.job.id == e.id < counter;
    }

    /** get_job: the newest job of the own list, claimed. */
    method GetJob(ghost name: AnahyJob? -> JobId, ghost frames: seq<Frame>, ghost s: State, ghost v: nat)
      returns (job: AnahyJob?)
      requires Valid() && v < |s.vps| && s.vps[v] == Image(name, frames, AtPop)
      modifies list, set e | e in list.Contents() && e.job != null :: e.job`state
      ensures Valid()
      ensures job == null <==> old(list.Contents()) == []
      ensures job == null ==> list.Contents() == []
      ensures job != null ==>
                && job == Last(old(list.Contents())).job
                && list.Contents() == AfterExtractLast(old(list.Contents()))
      ensures job != null ==> job.state == if old(job.state) == Ready then Running else old(job.state)
      ensures job != null ==> Image(name, frames, Popped(name(job))) == DoPop(s, v).vps[v]
      ensures job == null ==>
                DoPop(s, v).vps[v] == ImageOf(list.Contents(), counter, null, context.Contents(), name, frames,
                                              if frames == [] then AtCount else AtSteal(0))
    {
      hide ImageOf, Renamed;
      job := null;
      ghost var before := list.Contents();
      GetJobIsPop(s, v, before, counter, current, context.Contents(), name, frames);
      var empty := list.Empty();
      if !empty {
        var last := list.ExtractLast();
        assert last.value in before;
        job := last.value.job;
        var swapped := job.CompareAndSwapState(Ready, Running);
      }
    }

    /** steal_job, called on this VP, number k, by VP v: the first job of the heap, claimed. */
    method StealJob(ghost name: AnahyJob? -> JobId, ghost frames: seq<Frame>, ghost pc: Pc, ghost s: State,
                    ghost v: nat, ghost k: nat)
      returns (job: AnahyJob?)
      requires Valid() && v < |s.vps| && k < |s.vps| && v != k && s.vps[k] == Image(name, frames, pc)
      modifies list, list.data, set e | e in list.Contents() && e.job != null :: e.job`state
      ensures Valid()
      ensures job == null <==> old(list.Contents()) == []
      ensures job == null ==> list.Contents() == []
      ensures job != null ==>
                && job == old(list.Contents())[0].job
                && list.Contents() == AfterExtractMin(old(list.Contents()))
      ensures job != null ==> job.state == if old(job.state) == Ready then Running else old(job.state)
      ensures Image(name, frames, pc) == DoSteal(s, v, k).vps[k]
      ensures DoSteal(s, v, k).vps[v].pc == if job == null then AtSteal(k + 1) else Stolen(name(job))
    {
      hide AfterExtractMin, SiftDown, DoSteal, ImageOf, Renamed;
      job := null;
      ghost var before := list.Contents();
      StealJobIsSteal(s, v, k, before, counter, current, context.Contents(), name, frames, pc);
      var empty := list.Empty();
      if !empty {
        var min := list.ExtractMin();
        LeavesOnlyOld(before);
        job := min.value.job;
        var swapped := job.CompareAndSwapState(Ready, Running);
      }
    }

    /** The first half of suspend_current_job_and_run_another: what join_job does when its target
        is not Finished. */
    method Suspend(ghost name: AnahyJob? -> JobId, ghost frames: seq<Frame>, ghost s: State, ghost v: nat)
      requires Valid() && v < |s.vps| && s.vps[v] == Image(name, frames, AtCheck)
      requires frames != [] && Last(frames).Joining? && !IsFinished(s.jobs, Last(frames).target)
      modifies context, context.data
      ensures Valid() && (context.data == old(context.data) || fresh(context.data))
      ensures context.Contents() == old(context.Contents()) + [current]
      ensures list.Contents() == old(list.Contents())
      ensures Image(name, frames, AtPop) == DoCheck(s, v).vps[v]
    {
      SuspendAndResume(list.Contents(), counter, current, context.Contents(), name, frames, AtPop);
      context.Push(current);
    }

    /** The second half: the suspended job is current again. */
    method Resume(ghost name: AnahyJob? -> JobId, ghost frames: seq<Frame>, ghost pc: Pc)
      requires Valid() && context.Contents() != []
      modifies this`current, context
      ensures Valid() && (context.data == old(context.data) || fresh(context.data))
      ensures current == Last(old(context.Contents())) && context.Contents() == Pop(old(context.Contents()))
      ensures list.Contents() == old(list.Contents())
      ensures Image(name, frames, AtCheck) == BackToCheck(old(Image(name, frames, pc)))
    {
      SuspendAndResume(list.Contents(), counter, current, context.Contents(), name, frames, pc);
      current := context.Top();
      context.Pop();
    }
  }
}
