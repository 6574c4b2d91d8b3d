# Anahy-3: a verified model

Anahy-3 is a fork/join runtime. A fixed number of virtual processors (VPs) run jobs; each VP owns a
locked list of jobs, takes the newest one for itself and lets the others steal from the front. A join
whose job is not finished runs some other job on top of the current call stack. A shared counter of
idle VPs decides when everybody may leave. This project models that runtime, the containers under it,
a prototype of its termination detection, and three client programs, and proves what they promise.

`dafny verify dfyconfig.toml` checks everything.

## The files

- `Scheduler.dfy`: the scheduler as a transition system over any number of VPs and jobs. One step is
  one atomic action of one VP: a locked list operation, a compare-and-swap, an atomic add, or code that
  touches only the VP's own fields. User functions are arbitrary: they may fork a fresh job, join any
  forked job, or return, at any time. The inline branch of `fork_job` (more than 10000 suspended
  contexts) is part of the model, with the effect it has in the code: the job runs while it is still
  Ready, so it never becomes Finished.
- `SchedulerInvariant.dfy`, `SchedulerSteps.dfy`, `SchedulerJobSteps.dfy`: the invariant and its
  preservation by every step. The fields `forker`, `inlined`, `place`, `starts` and `stamp` of a job
  are history; the invariant ties them to the real fields, and the results below are stated over the
  real fields where the history is not the subject.
- `SchedulerResults.dfy`: exactly-once execution, the idle counter, shutdown, list order, context stack.
- `SchedulerSweep.dfy`: how a VP without work looks through the lists of the others.
- `SchedulerWaiting.dfy`: who waits for whom, and waiting in a circle; `SchedulerProgress.dfy`,
  `SchedulerShutdown.dfy`, `SchedulerCompletion.dfy`: deadlock freedom, shutdown, and exactly when everything
  can finish; `SchedulerInline.dfy`, `SchedulerHangs.dfy`: runs that get where it cannot.
- `Fibonacci.dfy`: the client `par_fib` running on that scheduler; `FibonacciBound.dfy`: how many jobs it
  makes; `FibonacciReady.dfy`: where its code can be; `FibonacciOneVp.dfy`: its runs on one VP;
  `FibonacciDescent.dfy`: runs that finish and runs that hang, built step by step;
  `FibonacciCompletion.dfy`: when every run can be completed.
- `HeapOrder.dfy`, `HeapSift.dfy`, `HeapPositions.dfy`, `HeapOperations.dfy`, `Capacity.dfy`: the heap and the
  resizing rules as functions, with their laws;
  `SmartHeap.dfy`, `SmartStack.dfy`: the containers themselves, refining those functions.
- `AnahyJob.dfy`, `VirtualProcessor.dfy`: the fields and operations of a job and of a VP, over the
  containers, with the abstraction under which they are the scheduler's steps.
- `Joins.dfy`: the join counter and the reclamation of smart jobs under interleaved joins.
- `Monitor.dfy`: termination detection with a mutex and a condition variable.
- `NQueens.dfy`, `MergeSort.dfy`: the other two clients; `MergeTasks.dfy`: the forked merge sort in small
  steps, under every interleaving of its activations.

## What turned out to be false of the code

- `extract_min` does not always leave a heap: `heapify_down` never compares the sinking element with
  its children. `ExtractMinCanMissTheMinimum` gives a run on 1..7 in which a later extraction misses the
  minimum; `ExtractMinOrderedIff` says exactly when the order survives; `ExtractMinAlmostOrdered` says
  that one `heapify_up` would repair it.
- A job that `fork_job` runs inline is never Finished, and a join for it never returns
  (`InlinedNeverFinished`, `InlinedJoinNeverReturns`). `InlinedJoinReachable` shows that one VP gets
  there. `NoJobLostAtShutdown` says which jobs are Finished: exactly those that were not inlined.
- `par_fib` meets that case. On one VP it can get into a state from which it cannot end if and only if its
  argument is at least 10002 (`OneVpCanEndIff`, `OneVpHangsIff`); from there on such a run exists on every
  number of VPs (`DeepRunsCannotEnd`). On any number of VPs at most 10000 jobs with children are safe, which
  is an argument of at most 19 (`FibCanComplete`, `InnerCountOfNineteen`).
- While a job runs inline, `current_job` still names the job that was current before, so jobs that it forks
  get the wrong parent and its joins suspend the wrong job. `ContextDiscipline`, `ContextEntry` and
  `ParentIsForkerIff` say that this happens exactly for inlined jobs.
- A smart job joined more often than its counter says can be touched after it was deleted;
  `SafeIffCounted` gives the exact condition.
- The base case of the merge sort sorts exactly the lengths up to 3 (`BaseSortsIff`); the guard of the
  recursive case is what makes it correct.
- Helping joins can deadlock programs whose joins alone close no circle: a join may run a job on top of the
  very job that it joins (`AncestorJoinReachable`). From a reachable state the machine can finish if and only
  if no jobs wait in a circle, through joins or through being buried under each other on call stacks, and no
  join for an inlined job is pending (`CanFinishIff`); such a circle is for ever (`CycleIsForever`). Joining
  only one's own listed jobs is enough to avoid it (`StrictJoinsCanFinish`).

## Reading of the source

- `decrement_and_fetch_join_counter` has no return statement; it is taken to return the new value.
- `solve` does nothing with the placements it finds. `NQueens.Solve` records the contents of `hist` at
  every entry with `col == n`. A child that is forked and joined at once is a call.
- Memory is sequentially consistent. `realloc` copies the live elements, and allocation succeeds.
- Integers are unbounded except for the 16-bit join counter.

## Model

| member | source | states |
|---|---|---|
| SchedulerJobSteps.StepKeepsInv | SRC/VirtualProcessor.cpp:12-158 | every atomic step of the scheduler, on every VP and for every behaviour of user functions, keeps the global invariant |
| SchedulerJobSteps.ReachableInv | SRC/AnahyVM.cpp:56-79 | the invariant holds in every reachable state, for every number of VPs |
| SchedulerJobSteps.ClaimKeepsInv | SRC/VirtualProcessor.cpp:136-138 | the unchecked compare-and-swap Ready to Running of a job taken from a list succeeds |
| SchedulerJobSteps.StealKeepsInv | SRC/VirtualProcessor.cpp:143-158 | a theft moves one job from the victim's list to the thief's hand and loses or duplicates none |
| SchedulerJobSteps.FinishKeepsInv | SRC/AnahyJob.cpp:52-55 | the end of a job, in a run loop, a join or an inline call, returns the VP to a consistent caller |
| SchedulerJobSteps.ForkKeepsInv | SRC/VirtualProcessor.cpp:68-80 | forking, listed or inline, keeps the invariant |
| SchedulerSteps.CountKeepsInv | SRC/VirtualProcessor.cpp:23-27 | adding to the idle counter and possibly leaving keeps the invariant; when the last VP is counted none is in user code |
| SchedulerResults.AtMostOneSpot | SRC/VirtualProcessor.cpp:68-80 | in every reachable state a job is in at most one slot of one list, one hand, one stack frame, or Finished |
| SchedulerResults.SomeSpot | SRC/VirtualProcessor.cpp:125-158 | every listed job is in one of them, with the state and the number of starts that belong to it |
| SchedulerResults.StartedAtMostOnce | SRC/AnahyJob.cpp:52-55 | the function of a job is called at most once, and exactly once if the job is Finished |
| SchedulerResults.UncheckedCas | SRC/AnahyJob.cpp:52-55 | the final compare-and-swap Running to Finished succeeds exactly for jobs that were not inlined |
| SchedulerResults.IdleIsExact | SRC/VirtualProcessor.cpp:21-38 | `idle_vps` is the number of VPs between the add and the subtract plus those that left |
| SchedulerResults.AllIdleMeansNothingListed | SRC/VirtualProcessor.cpp:23-38 | when all VPs are counted, every list is empty and each unfinished job is in a thief's hand |
| SchedulerResults.NobodyLeavesEarly | SRC/AnahyVM.cpp:81-83 | no VP leaves its loop before the main program is in terminate |
| SchedulerResults.LeavesIff | SRC/VirtualProcessor.cpp:23-27 | a VP leaves its loop if and only if it finds every other VP counted, idle or gone |
| SchedulerResults.LastVpLeaves | SRC/VirtualProcessor.cpp:21-27 | the last VP leaves as soon as it finds its list empty |
| SchedulerResults.NoJobLostAtShutdown | SRC/AnahyVM.cpp:81-96 | when all VPs have left, no list or stack holds a job, every job was started once, and exactly the jobs not inlined are Finished |
| SchedulerResults.ExitedStaysEmpty | SRC/VirtualProcessor.cpp:25-27 | along every continuation a VP that left never acts again and its list stays empty |
| SchedulerResults.ForkAppends | SRC/VirtualProcessor.cpp:70-79 | the insertion of fork_job never swaps: it appends |
| SchedulerResults.UnstolenStaysAscending | SRC/VirtualProcessor.cpp:70-79 | until a thief touches it, a list stays in fork order |
| SchedulerResults.NewestForOwnerOldestForThief | SRC/VirtualProcessor.cpp:125-158 | on such a list the owner takes the newest job and a thief the oldest |
| SchedulerResults.UnstolenListIsAStack | SRC/VirtualProcessor.cpp:68-140 | over any path without thefts from it, a list changes like a stack and every pop returns its newest job |
| SchedulerResults.ContextDiscipline | SRC/VirtualProcessor.cpp:82-109 | at every point of every run context_stack lists the jobs suspended in the pending joins, outermost first; in user code current_job is the job whose code runs if and only if that job is not inlined |
| SchedulerResults.ContextEntry | SRC/VirtualProcessor.cpp:82-83 | the entry of a suspended join is the job whose code called it, if and only if that job is not inlined |
| SchedulerResults.ContextAlternates | SRC/VirtualProcessor.cpp:82-109 | where nothing is inlined, jobs and joins alternate on the call stack and context_stack is the sequence of the jobs below the joins |
| SchedulerResults.ParentIsForkerIff | SRC/VirtualProcessor.cpp:70-71 | the recorded parent of a job is the job that forked it, if and only if the forking job was not inlined |
| SchedulerResults.JoinFrameStep | SRC/VirtualProcessor.cpp:111-122 | a pending join and all below it stay on the stack until the joined job is Finished |
| SchedulerResults.JoinRestores | SRC/VirtualProcessor.cpp:82-115 | over any run, a join that returns finds current_job and context_stack as at its call |
| SchedulerSweep.OwnListFirst | SRC/VirtualProcessor.cpp:17-23 | in every run a VP counts itself idle only after it has looked at its own list and found it empty, with nothing in between |
| SchedulerSweep.IdleVpSteals | SRC/VirtualProcessor.cpp:21-36 | a VP that found its own list empty while somebody else is at work takes the first job of the first other list, in order, that has one |
| SchedulerSweep.JoiningVpSteals | SRC/VirtualProcessor.cpp:89-101 | so does a VP in a join whose own list is empty |
| SchedulerSweep.SweepSteals | SRC/VirtualProcessor.cpp:29-36 | and so does a sweep that has come to any list before that one |
| SchedulerSweep.OutOfWorkSteals | SRC/VirtualProcessor.cpp:21-36 | as soon as any other list holds a job, a VP out of work holds one within n + 2 of its own actions |
| SchedulerSweep.VainSweepSawAllEmpty | SRC/VirtualProcessor.cpp:29-36 | whatever the others do meanwhile, a sweep ends empty-handed only if each other list was empty at some moment since it began |
| SchedulerSweep.AfterVainSweep | SRC/VirtualProcessor.cpp:37-109 | after it a VP in the run loop leaves the counter and looks at its own list again, one in a join restores its suspended job and tests the target again |
| SchedulerWaiting.WaitsOn | SRC/VirtualProcessor.cpp:82-122 | whatever anybody does, a wait ends only with the end of the job that is waited for |
| SchedulerWaiting.CycleIsForever | SRC/VirtualProcessor.cpp:82-122 | jobs that wait in a circle, on one stack or across stacks, wait in every continuation and none of them ends |
| SchedulerWaiting.NoNewCycle | SRC/VirtualProcessor.cpp:82-122 | the scheduler makes no circle of its own: only forks and joins of user code can |
| SchedulerWaiting.WaitingGoesToLaterJobs | SRC/VirtualProcessor.cpp:82-115 | a buried job waits for a later-started job above it, a joining job for a later-started child |
| SchedulerWaiting.StrictIsAcyclic | SRC/VirtualProcessor.cpp:82-115 | where every pending join is for a listed job of the joining code, nobody waits in a circle |
| SchedulerProgress.ProductiveIsEnabled | SRC/VirtualProcessor.cpp:12-44 | an action that counts as progress is possible |
| SchedulerProgress.NoDeadlock | SRC/VirtualProcessor.cpp:82-122 | in every reachable state with an unfinished listed job where nobody waits in a circle or for an inlined job, some VP reaches a useful action within n + 2 of its own actions |
| SchedulerProgress.InlinedNeverFinished | SRC/VirtualProcessor.cpp:73-74 | an inlined job stays Ready for ever |
| SchedulerProgress.InlinedJoinNeverReturns | SRC/VirtualProcessor.cpp:73-74 | a join for an inlined job is pending in every continuation |
| SchedulerProgress.AncestorJoinNeverReturns | SRC/VirtualProcessor.cpp:111-115 | a join for a job below it on the same stack is pending in every continuation |
| SchedulerHangs.AncestorJoinReachable | SRC/VirtualProcessor.cpp:82-122 | one VP reaches such a join in a program whose joins close no circle, and the machine cannot finish from there |
| SchedulerInline.InlinedJoinReachable | SRC/VirtualProcessor.cpp:73-74 | a machine with one VP reaches a pending join for an inlined job |
| SchedulerShutdown.ShutdownCanComplete | SRC/VirtualProcessor.cpp:17-44 | once the main program has ended and all jobs but the inlined ones are Finished, some continuation lets every VP leave |
| SchedulerCompletion.AdvanceWorks | SRC/VirtualProcessor.cpp:12-158 | no scheduler action adds to what is left to do, and every useful one reduces it |
| SchedulerCompletion.EverythingCanFinish | SRC/VirtualProcessor.cpp:12-158 | from every reachable state where nobody waits in a circle or for an inlined job some continuation runs every job to its end, ends the main program and lets all VPs leave |
| SchedulerCompletion.CanFinishIff | SRC/VirtualProcessor.cpp:12-158 | the exact condition: from a reachable state all VPs can come to leave if and only if nobody waits in a circle and no join for an inlined job is pending |
| SchedulerCompletion.StrictJoinsCanFinish | SRC/VirtualProcessor.cpp:12-158 | so strict joins suffice |
| Fibonacci.EventKeepsCorrect | SRC/tests/fibo/fibonacci.cpp:12-37 | every action of par_fib and of the scheduler under it keeps the link between program points, cells and job states |
| Fibonacci.JoinYieldsFib | SRC/tests/fibo/fibonacci.cpp:39-53 | in every run, on any number of VPs, for every n, the cell holds Fib(n) when the main join has returned |
| Fibonacci.CellsAreWrittenByTheirJob | SRC/tests/fibo/fibonacci.cpp:31-34 | a cell changes only by its own job's sum, after both children are Finished |
| Fibonacci.CellsAreWrittenOnce | SRC/tests/fibo/fibonacci.cpp:31-34 | over every run a cell changes at most once |
| Fibonacci.CallsAsWritten | SRC/tests/fibo/fibonacci.cpp:15-32 | in every run a job's left child is for its argument less one and is forked first, its right child for its argument less two |
| Fibonacci.JoinsAsWritten | SRC/tests/fibo/fibonacci.cpp:31-32 | every pending join of a job is for its right child or, once that is Finished, for its left child |
| Fibonacci.FibJoinsItsChildren | SRC/tests/fibo/fibonacci.cpp:26-32 | in every run every pending join of par_fib is for a job forked by the joining code, inlined or not |
| Fibonacci.FibJoinsAreStrictIff | SRC/tests/fibo/fibonacci.cpp:26-32 | so its joins are strict if and only if none for an inlined job is pending |
| Fibonacci.FibMakesProgress | SRC/tests/fibo/fibonacci.cpp:12-37 | while a listed job of par_fib is unfinished and no join for an inlined job is pending, some VP reaches a useful action on its own |
| FibonacciBound.JobsBounded | SRC/tests/fibo/fibonacci.cpp:12-37 | at every moment of every run there are at most as many jobs as the call tree has nodes, and as many with children as it has inner nodes |
| FibonacciBound.CountsAreFib | SRC/tests/fibo/fibonacci.cpp:15-32 | these numbers are 2 Fib(n + 1) - 1 and Fib(n + 1) - 1 |
| FibonacciBound.InnerCountOfNineteen | SRC/VirtualProcessor.cpp:73 | the inner nodes stay within the inline depth if and only if n is at most 19 |
| FibonacciBound.ContextBelowInner | SRC/VirtualProcessor.cpp:73 | a fork of par_fib finds at most as many suspended jobs as there are jobs with children |
| FibonacciBound.FewJobsInlineNothing | SRC/VirtualProcessor.cpp:73-79 | then no fork runs inline, on any number of VPs and under every schedule |
| FibonacciOneVp.OneVpIsLifo | SRC/VirtualProcessor.cpp:82-140 | on one VP, up to 10001, nothing is inlined, the list is the stack of the children forked and not joined, and every join runs the job it waits for |
| FibonacciOneVp.ForkDepth | SRC/VirtualProcessor.cpp:73 | a fork of par_fib on one VP finds fewer suspended jobs than the argument of the call |
| FibonacciOneVp.OneVpHangsIff | SRC/VirtualProcessor.cpp:73-74 | on one VP a run of par_fib reaches a pending join for an inlined job if and only if n is at least 10002 |
| FibonacciOneVp.FibDoesNotDeadlock | SRC/tests/fibo/fibonacci.cpp:12-37 | for at most 10000 jobs with children, or n at most 10001 on one VP: in every run, while a job is unfinished, some VP reaches a useful action on its own |
| FibonacciDescent.Complete | SRC/tests/fibo/fibonacci.cpp:12-37 | a call that cannot get 10001 joins deep can be run to its end by one VP, leaving list, context, stack and all other jobs as they were |
| FibonacciDescent.ShallowRunsFinish | SRC/tests/fibo/fibonacci.cpp:39-53 | for n at most 10001, on every number of VPs some run returns from the main join |
| FibonacciDescent.DeepRunsHang | SRC/VirtualProcessor.cpp:73-74 | for n at least 10002, on every number of VPs some run joins an inlined job |
| FibonacciDescent.StuckForever | SRC/VirtualProcessor.cpp:111-115 | and in every continuation of it the main program is still waiting |
| FibonacciCompletion.FibCanComplete | SRC/tests/fibo/fibonacci.cpp:39-53 | for the arguments of FibDoesNotDeadlock, every run can be continued until all jobs are Finished, the main program has ended with Fib(n) in its cell, and all VPs can leave |
| FibonacciCompletion.FibCanFinishIff | SRC/tests/fibo/fibonacci.cpp:12-53 | wherever a run of par_fib has got, on any number of VPs, the machine can still finish if and only if no join for an inlined job is pending |
| FibonacciCompletion.OneVpCanEndIff | SRC/tests/fibo/fibonacci.cpp:39-53 | on one VP every run of par_fib can be continued to its end if and only if n is at most 10001 |
| FibonacciCompletion.DeepRunsCannotEnd | SRC/tests/fibo/fibonacci.cpp:39-53 | for n at least 10002, on every number of VPs some run cannot |
| HeapSift.SiftUpRepairs | SRC/lib/AnahySmartHeap.h:30-38 | heapify_up restores full order when only the edge above its start is wrong |
| HeapSift.SiftUpKeepsElements | SRC/lib/AnahySmartHeap.h:30-38 | heapify_up permutes |
| HeapSift.SiftDownEffect | SRC/lib/AnahySmartHeap.h:40-52 | after heapify_down every edge is ordered except possibly the one above the leaf where the sunk element stopped |
| HeapSift.SiftDownKeepsElements | SRC/lib/AnahySmartHeap.h:40-52 | heapify_down permutes |
| HeapSift.RootIsMinimum | SRC/lib/AnahySmartHeap.h:94-100 | the root of an ordered heap is a minimum |
| HeapPositions.SiftUpAt | SRC/lib/AnahySmartHeap.h:30-38 | slot by slot on any array: the element of the start slot goes to the first slot whose parent is no larger, what it passes goes down one place, nothing else moves |
| HeapPositions.SiftDownAt | SRC/lib/AnahySmartHeap.h:40-52 | slot by slot on any array: nothing off the path of smaller children moves, along it every element goes up one place, and the start element goes to its end |
| HeapPositions.PathGoesOn | SRC/lib/AnahySmartHeap.h:40-52 | the path of smaller children goes on through exactly one child until there is none |
| HeapPositions.InsertAt | SRC/lib/AnahySmartHeap.h:72-92 | so what insert leaves in each slot |
| HeapPositions.ExtractMinAt | SRC/lib/AnahySmartHeap.h:94-119 | and what extract_min leaves in each slot |
| HeapOperations.InsertKeepsOrder | SRC/lib/AnahySmartHeap.h:72-92 | insert keeps the heap order and adds exactly its element |
| HeapOperations.ExtractMinKeepsElements | SRC/lib/AnahySmartHeap.h:94-119 | extract_min removes exactly the element it returns |
| HeapOperations.ExtractMinAlmostOrdered | SRC/lib/AnahySmartHeap.h:94-119 | on an ordered heap extract_min returns a minimum, breaks at most one edge, and heapify_up from that leaf would repair it |
| HeapOperations.ExtractMinOrderedIff | SRC/lib/AnahySmartHeap.h:94-119 | the exact condition, readable before the call, under which extract_min keeps the heap order |
| HeapOperations.ExtractMinCanMissTheMinimum | SRC/lib/AnahySmartHeap.h:40-52 | from 1..7 five extractions give 1, 2, 3, 4, 6 with 5 still in the heap |
| HeapPositions.ExtractLastAt | SRC/lib/AnahySmartHeap.h:121-143 | extract_last takes the last slot and leaves all others |
| HeapOperations.ExtractLastKeepsElements | SRC/lib/AnahySmartHeap.h:121-143 | extract_last removes exactly the element it returns |
| HeapOperations.ExtractLastKeepsOrder | SRC/lib/AnahySmartHeap.h:121-143 | extract_last keeps the heap order |
| HeapOperations.InsertOfLargestAppends | SRC/lib/AnahySmartHeap.h:72-92 | inserting an id above all others appends, and extract_last undoes it |
| HeapOperations.OperationsIgnoreNames | SRC/lib/AnahySmartHeap.h:72-143 | the heap looks at ids only: renaming the jobs commutes with insert, extract_min and extract_last |
| HeapOperations.FirstStealKeepsOrder | SRC/lib/AnahySmartHeap.h:94-119 | in an ascending array the first extract_min leaves full order |
| SmartHeap.SmartHeap.constructor | SRC/lib/AnahySmartHeap.h:56-66 | a new heap is empty with as many slots as asked for, at least 12, and a quarter of that as lower bound |
| SmartHeap.SmartHeap.HeapifyUp | SRC/lib/AnahySmartHeap.h:30-38 | the loop computes the sift-up of the array |
| SmartHeap.SmartHeap.HeapifyDown | SRC/lib/AnahySmartHeap.h:40-52 | the loop sinks the element along the smaller children to a leaf |
| SmartHeap.SmartHeap.Insert | SRC/lib/AnahySmartHeap.h:72-92 | contents and bounds after an insertion, through any realloc; what the realloc copied is counted |
| SmartHeap.SmartHeap.ExtractMin | SRC/lib/AnahySmartHeap.h:94-119 | result, contents, bounds and elements copied after an extraction; nothing on an empty heap |
| SmartHeap.SmartHeap.ExtractLast | SRC/lib/AnahySmartHeap.h:121-143 | the last element of the array is taken, with bounds and elements copied; nothing on an empty heap |
| Capacity.HalveBounds | SRC/lib/AnahySmartStack.h:64-70 | halving is exact: it undoes one doubling |
| Capacity.ApplyKeepsShape | SRC/lib/AnahySmartStack.h:41-80 | for the stack and for the heap with its free slot: the elements fit before and after every resize, and the bounds stay the initial ones times a power of two |
| Capacity.AmortizedBound | SRC/lib/AnahySmartHeap.h:72-143 | over any sequence of operations of a stack or a heap, reallocs copy at most 2 elements per insertion, 1 per removal and half the initial capacity |
| Capacity.ShrinksInTime | SRC/lib/AnahySmartStack.h:64-70 | after every sequence of operations an array that can still be halved is more than a quarter full, and no array has more than five times the slots that its size or its initial size asks for |
| SmartStack.SmartStack.constructor | SRC/lib/AnahySmartStack.h:16-25 | a new stack is empty with as many slots as asked for, at least 12, and a quarter of that as lower bound |
| SmartStack.SmartStack.Top | SRC/lib/AnahySmartStack.h:39 | the element pushed last |
| SmartStack.SmartStack.Push | SRC/lib/AnahySmartStack.h:41-60 | contents survive any realloc; what the realloc copied is counted |
| SmartStack.SmartStack.Pop | SRC/lib/AnahySmartStack.h:64-80 | contents without the last element; what the realloc copied is counted |
| AnahyJob.AnahyJob.constructor | SRC/AnahyJob.cpp:6-17 | a fresh job is Ready and expects one join |
| AnahyJob.AnahyJob.SetJoinCounter | SRC/AnahyJob.cpp:41-44 | the counter is set; it must be positive |
| AnahyJob.AnahyJob.CompareAndSwapState | SRC/AnahyJob.h:66 | the state changes only from the expected value, and the result says so |
| AnahyJob.AnahyJob.DecrementAndFetchJoinCounter | SRC/AnahyJob.h:67 | the new value of the 16-bit counter, which wraps around below zero |
| AnahyJob.AnahyJob.Finish | SRC/AnahyJob.cpp:52-55 | the result is stored and only a Running job becomes Finished; these are the two moves of the runner in Joins |
| AnahyJob.AnahyJob.CountJoin | SRC/VirtualProcessor.cpp:117-121 | the join's value, and whether this join is the one that deletes the job; these are two moves of a joiner in Joins, for any value of the counter |
| VirtualProcessor.VirtualProcessor.ForkJob | SRC/VirtualProcessor.cpp:68-80 | parent, id and counter, and the list with the job appended unless it is to run inline; with the frame of that call, the new fields are the image of the scheduler's fork |
| VirtualProcessor.VirtualProcessor.GetJob | SRC/VirtualProcessor.cpp:125-140 | the newest element of the own array, claimed; the new fields are the image of the scheduler's pop |
| VirtualProcessor.VirtualProcessor.StealJob | SRC/VirtualProcessor.cpp:143-158 | the root of the heap, claimed; the new fields are the image of the scheduler's theft |
| VirtualProcessor.VirtualProcessor.Suspend | SRC/VirtualProcessor.cpp:83 | the current job goes on the context stack, as in the scheduler's failed test of a join |
| VirtualProcessor.VirtualProcessor.Resume | SRC/VirtualProcessor.cpp:107-108 | the suspended job is current again, as when the scheduler goes back to the test |
| VirtualProcessor.ForkJobIsFork | SRC/VirtualProcessor.cpp:68-80 | under the abstraction of the objects, ForkJob is the scheduler's fork, listed or inline |
| VirtualProcessor.GetJobIsPop | SRC/VirtualProcessor.cpp:125-140 | GetJob is the pop of the own list |
| VirtualProcessor.StealJobIsSteal | SRC/VirtualProcessor.cpp:143-158 | StealJob is the theft of the first job of the victim's heap |
| VirtualProcessor.SuspendAndResume | SRC/VirtualProcessor.cpp:82-109 | Suspend and Resume are the first and the last action of a join that helps |
| Joins.JoinsAreSafe | SRC/VirtualProcessor.cpp:111-122 | with at most k joiners, in every interleaving: no touch after deletion, at most one deletion, and every join gets the function's value |
| Joins.ReclaimedWhenAllJoined | SRC/VirtualProcessor.cpp:117-121 | when all joins have returned, the job was deleted once if smart and joined k times, else not |
| Joins.TooManyJoinersDangle | SRC/VirtualProcessor.cpp:117-121 | with more joiners than the counter says there is a run that touches the deleted job |
| Joins.SafeIffCounted | SRC/AnahyJob.cpp:41-44 | all interleavings are safe if and only if there are at most k joiners |
| Monitor.StepKeepsInv | Sandbox/main_loop.cpp:40-91 | every critical section, and every spurious wakeup, keeps the invariant |
| Monitor.TasksInOrder | Sandbox/main_loop.cpp:29-50 | first in, first out: the tasks taken are, in order, the first of all tasks ever listed, and each is running or has ended, once |
| Monitor.NewTaskPerFive | Sandbox/main_loop.cpp:40-50 | there is one new task, of cost 3, 4 or 5, or about to be one, for each task of cost 5 that has ended, and for no other |
| Monitor.FinishedMeansNoWork | Sandbox/main_loop.cpp:73-80 | when program_finished is set, no task is listed, running or about to be pushed, every task was run once, and every one of cost 5 has brought another |
| Monitor.OnlyPushesKeepItGoing | Sandbox/main_loop.cpp:52-91 | every step but a push and a spurious wakeup brings the end nearer, so with finitely many of those a run is finite |
| Monitor.WaitingIsExact | Sandbox/main_loop.cpp:74-86 | vps_waiting counts the VPs in or returning from the wait, plus the declarer |
| Monitor.NoLostWakeup | Sandbox/main_loop.cpp:40-48 | an unsignalled waiter implies an empty list, a running program, and another VP that is not blocked |
| Monitor.SomebodyCanAct | Sandbox/main_loop.cpp:58-91 | until all VPs have left, some VP can act without a spurious wakeup |
| Monitor.ShutdownIsShort | Sandbox/main_loop.cpp:61-64 | program_finished stays set, the list stays empty, and at most two more steps per VP follow |
| Monitor.Shared.GetTask | Sandbox/main_loop.cpp:29-38 | the front of the list, or 0 |
| Monitor.Shared.Turn | Sandbox/main_loop.cpp:58-87 | the critical section of the loop is the transition system's step |
| Monitor.Shared.EndOfTask | Sandbox/main_loop.cpp:40-42 | after a task of cost 5, and no other, the VP goes on to push a task |
| Monitor.Shared.UpdateGraph | Sandbox/main_loop.cpp:40-50 | so is the critical section of update_graph |
| Monitor.Shared.AfterWait | Sandbox/main_loop.cpp:83-85 | so is the return from the wait |
| NQueens.FirstAttacker | SRC/tests/nqueens/nqueens.cpp:26-28 | the inner loop finds the first attacking queen, if any |
| NQueens.Solve | SRC/tests/nqueens/nqueens.cpp:13-47 | one call meets exactly the solutions that extend the given columns, in order, leaves those columns as they were, and never writes hist[n] |
| NQueens.SolveAll | SRC/tests/nqueens/nqueens.cpp:49-77 | for every n, the entries with col == n are the placements of n non-attacking queens, each once, in lexicographic order |
| NQueens.LastColumnIsAttacked | SRC/tests/nqueens/nqueens.cpp:26-29 | with n queens placed every row is attacked, which is what ends the recursion |
| NQueens.AllAreSolutions | SRC/tests/nqueens/nqueens.cpp:26-46 | the enumeration is sound and complete from every partial placement |
| NQueens.AllAscend | SRC/tests/nqueens/nqueens.cpp:27-46 | the enumeration ascends strictly in lexicographic order |
| MergeSort.PassReduces | SRC/tests/msort/merge_sort.cpp:133-142 | passes never add inversions, and one that asks for another pass removed some |
| MergeSort.BaseSortsIff | SRC/tests/msort/merge_sort.cpp:73 | the base case sorts all segments of a length if and only if that length is at most 3 |
| MergeSort.SortShort | SRC/tests/msort/merge_sort.cpp:129-143 | the do-while loop computes that base case in place and touches nothing else |
| MergeSort.MergedSorted | SRC/tests/msort/merge_sort.cpp:106-125 | merging sorted halves gives a sorted segment |
| MergeSort.Merge | SRC/tests/msort/merge_sort.cpp:97-127 | the loops compute the merge in place and touch nothing else |
| MergeSort.SortHalves | SRC/tests/msort/merge_sort.cpp:87-96 | both children, called one after the other in either order, sort their halves |
| MergeSort.Sort | SRC/tests/msort/merge_sort.cpp:56-144 | for every array, segment and thread budget, run sequentially: the segment is sorted, a permutation, and nothing else changed |
| MergeSort.SameResult | SRC/tests/msort/merge_sort.cpp:87-96 | there is only one such array |
| MergeTasks.WritesInside | SRC/tests/msort/merge_sort.cpp:56-144 | a step of an activation writes only inside its own segment |
| MergeTasks.ReadsInside | SRC/tests/msort/merge_sort.cpp:56-144 | and depends only on its own segment |
| MergeTasks.RunIsSplitTree | SRC/tests/msort/merge_sort.cpp:73-96 | at every moment the activations split segments of more than three positions into halves that differ by at most one, and fork exactly those whose number is within the budget |
| MergeTasks.StepKeepsGoal | SRC/tests/msort/merge_sort.cpp:56-144 | no step of any activation in the tree changes what the root will end with |
| MergeTasks.InterleavedSortIsCorrect | SRC/tests/msort/merge_sort.cpp:87-127 | under every interleaving of the activations, nested to any depth: when the root is done the segment is sorted, a permutation, and nothing else changed |
| MergeTasks.InterleavedEqualsSequential | SRC/tests/msort/merge_sort.cpp:87-127 | every interleaving, under every thread budget, leaves the array that Sort leaves |
| MergeTasks.InterleavedRunsEnd | SRC/tests/msort/merge_sort.cpp:56-144 | every interleaving has at most a number of steps that depends on the length only, and can go on until the root is done |

## Left out

- Threads, keys, CPU affinity, option parsing, printing and `malloc` failure: no logic of the runtime.
- Weak memory and fairness: steps are sequentially consistent, and only safety and the possibility of progress are shown.
- `AnahyVM::_exit` and the attribute interface: the value `_exit` stores is overwritten when the function returns, and the attributes are plain setters.
- Overflow of ids, sizes and of `long` in par_fib: unbounded integers.
- Popping or reading the top of an empty stack: undefined in the source, a precondition here.
- The loops of `run` and `join_job` as methods: they interleave with the other VPs, so they are steps of the transition system; only the operations on one VP's own fields are also methods. The arrays of VPs and threads in AnahyVM are the sequence of VPs of the state.
- Job results in the scheduler: they are the subject of `Joins.dfy` and `Fibonacci.dfy`.
- The other directories of `Sandbox` and the `comb` and `lcs` tests: earlier copies, unsettled designs, or programs that do not compute what they name.
- NQueens.Solve: runs on one thread, because every child is joined right after it is forked; the scheduler underneath is not part of that statement.
- MergeSort.Sort: runs the two children one after the other; that they may run together is the subject of `MergeTasks.dfy`, where a fork needs no VP: any activation that can act may act next, and helping joins and the inline depth of the scheduler play no part.
- FibonacciOneVp.FibDoesNotDeadlock: gives a sufficient condition only on two or more VPs, at most 10000 jobs with children; from 10002 on a run that hangs exists there too (`DeepRunsCannotEnd`), and for which arguments from 20 to 10001 thefts can nest a stack that deep is not stated.
- VirtualProcessor.VirtualProcessor.ForkJob: stops at the decision to run a job inline; the call itself is a step of the scheduler (`ForkJobIsFork`).
