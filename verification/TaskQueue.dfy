/**
 * The index maintenance queue: EnqueueIndexTask, IndexMaintenanceLoop and the shutdown in the
 * engine's destructor. Each critical section under index_task_mutex_ is one step; running a
 * task is not inside one.
 */
module TaskQueue {

  /** Where the worker thread stands. */
  datatype Worker<T> =
    | Unstarted
    | Looking            // about to take the mutex and evaluate the wait predicate
    | Blocked            // in the condition variable
    | Running(task: T)   // outside the mutex
    | Exited

  /**
   * pending are calls of EnqueueIndexTask between EnsureIndexMaintThread and the push. enqueued and
   * done are history, in the order of the pushes and of the completions.
   */
  datatype State<T> = State(
    started: bool,
    stop: bool,
    queue: seq<T>,
    worker: Worker<T>,
    pending: seq<T>,
    enqueued: seq<T>,
    done: seq<T>)

  datatype Step<T> =
    | Ensure(task: T)    // starts the worker the first time
    | Push(i: nat)       // the i-th pending call pushes and notifies
    | Shutdown           // the destructor sets the stop flag and notifies
    | Look               // the worker evaluates its predicate: block, exit or pop
    | Complete           // the worker finishes its task
    | Wake               // a spurious wakeup

  predicate Enabled<T>(s: State<T>, step: Step<T>) {
    match step
    case Ensure(_) => true
    case Push(i) => i < |s.pending|
    case Shutdown => true
    case Look => s.worker.Looking?
    case Complete => s.worker.Running?
    case Wake => s.worker.Blocked?
  }

  /** notify_one or notify_all: the worker is the only waiter. */
  function Notified<T>(w: Worker<T>): Worker<T> {
    if w.Blocked? then Looking else w
  }

  function Do<T>(s: State<T>, step: Step<T>): State<T>
    requires Enabled(s, step)
  {
    match step
    case Ensure(t) =>
      s.(started := true, worker := if s.started then s.worker else Looking, pending := s.pending + [t])
    case Push(i) =>
      s.(queue := s.queue + [s.pending[i]], enqueued := s.enqueued + [s.pending[i]],
         pending := s.pending[..i] + s.pending[i + 1..], worker := Notified(s.worker))
    case Shutdown => s.(stop := true, worker := Notified(s.worker))
    case Look =>
      if !s.stop && s.queue == [] then s.(worker := Blocked)
      else if s.queue == [] then s.(worker := Exited)
      else s.(queue := s.queue[1..], worker := Running(s.queue[0]))
    case Complete => s.(done := s.done + [s.worker.task], worker := Looking)
    case Wake => s.(worker := Looking)
  }

  function Init<T>(): State<T> {
    State(false, false, [], Unstarted, [], [], [])
  }

  function InHand<T>(w: Worker<T>): seq<T> {
    if w.Running? then [w.task] else []
  }

  ghost predicate Inv<T>(s: State<T>) {
    && s.enqueued == s.done + InHand(s.worker) + s.queue
    && (s.worker.Unstarted? <==> !s.started)
    && (!s.started ==> s.queue == [] && s.pending == [])
    && (s.worker.Blocked? ==> s.queue == [] && !s.stop)
    && (s.worker.Exited? ==> s.stop)
  }

  lemma StepKeepsInv<T>(s: State<T>, step: Step<T>)
    requires Inv(s) && Enabled(s, step)
    ensures Inv(Do(s, step))
    ensures Do(s, step).worker.Exited? && !s.worker.Exited? ==> s.queue == []
  {
    match step
    case Ensure(_) =>
    case Push(i) =>
      var x := [s.pending[i]];
      assert s.done + InHand(s.worker) + s.queue + x == s.done + InHand(s.worker) + (s.queue + x);
    case Shutdown =>
    case Look =>
      if s.queue != [] {
        assert s.queue == [s.queue[0]] + s.queue[1..];
        assert s.done + [] + s.queue == s.done + [s.queue[0]] + s.queue[1..];
      }
    case Complete =>
      assert s.done + [s.worker.task] + s.queue == (s.done + [s.worker.task]) + [] + s.queue;
    case Wake =>
  }

  /** A step that is not enabled waits and changes nothing. */
  function Next<T>(s: State<T>, step: Step<T>): State<T> {
    if Enabled(s, step) then Do(s, step) else s
  }

  function Run<T>(s: State<T>, steps: seq<Step<T>>): State<T>
    decreases steps
  {
    if steps == [] then s else Run(Next(s, steps[0]), steps[1..])
  }

  lemma {:induction false} RunKeepsInv<T>(s: State<T>, steps: seq<Step<T>>)
    requires Inv(s)
    ensures Inv(Run(s, steps))
    decreases steps
  {
    if steps != [] {
      if Enabled(s, steps[0]) { StepKeepsInv(s, steps[0]); }
      RunKeepsInv(Next(s, steps[0]), steps[1..]);
    }
  }

  /**
   * Over every schedule: the completed tasks, the one in hand and the queue are together the
   * enqueued tasks in enqueue order, so each runs once and in order; the worker never sleeps
   * on a task or a stop request; and it exits only after a stop.
   */
  lemma ExactlyOnceInOrder<T>(steps: seq<Step<T>>)
    ensures var s := Run(Init<T>(), steps);
            && s.enqueued == s.done + InHand(s.worker) + s.queue
            && (s.worker.Blocked? ==> s.queue == [] && !s.stop)
            && (s.worker.Exited? ==> s.stop)
  {
    RunKeepsInv(Init<T>(), steps);
  }

  /** The worker exits only on an empty queue: all that was enqueued by then has completed. */
  lemma ExitsOnlyWhenDrained<T>(steps: seq<Step<T>>, step: Step<T>)
    requires Enabled(Run(Init<T>(), steps), step)
    ensures var s := Run(Init<T>(), steps);
            var t := Do(s, step);
            t.worker.Exited? && !s.worker.Exited? ==> t.queue == [] && t.done == t.enqueued
  {
    RunKeepsInv(Init<T>(), steps);
    StepKeepsInv(Run(Init<T>(), steps), step);
  }

  predicate IsWork<T>(step: Step<T>) {
    step.Look? || step.Complete?
  }

  function Moves<T>(s: State<T>): nat {
    2 * |s.queue| + if s.worker.Running? then 2 else if s.worker.Looking? then 1 else 0
  }

  /**
   * A started worker that has not exited always has a step, unless it waits on an empty queue, and each
   * step takes it nearer to that.
   */
  lemma WorkerStepsOn<T>(s: State<T>)
    requires Inv(s) && s.started
    ensures || s.worker.Exited? || (s.worker.Blocked? && s.queue == [] && !s.stop)
            || exists step :: IsWork(step) && Enabled(s, step)
    ensures forall step :: IsWork(step) && Enabled(s, step) ==> Moves(Do(s, step)) < Moves(s)
  {
    if s.worker.Looking? { assert IsWork<T>(Look) && Enabled(s, Look); }
    if s.worker.Running? { assert IsWork<T>(Complete) && Enabled(s, Complete); }
  }

  /** How many steps the worker took in a schedule. */
  function Worked<T>(s: State<T>, steps: seq<Step<T>>): nat
    decreases steps
  {
    if steps == [] then 0
    else (if IsWork(steps[0]) && Enabled(s, steps[0]) then 1 else 0) + Worked(Next(s, steps[0]), steps[1..])
  }

  /** The worker's steps until n tasks are done: two for each, and one less with one in hand. */
  function StepsTo<T>(s: State<T>, n: nat): nat {
    if |s.done| >= n then 0 else 2 * (n - |s.done|) - if s.worker.Running? then 1 else 0
  }

  /** Up to n tasks of those enqueued, the worker is not at its end. */
  ghost predicate WillDo<T>(s: State<T>, n: nat) {
    Inv(s) && n <= |s.enqueued| && (s.worker.Exited? ==> |s.done| >= n)
  }

  lemma TaskStep<T>(s: State<T>, step: Step<T>, n: nat)
    requires WillDo(s, n) && Enabled(s, step)
    ensures var t := Do(s, step);
            && WillDo(t, n) && s.enqueued <= t.enqueued && StepsTo(t, n) <= StepsTo(s, n)
            && (IsWork(step) && StepsTo(s, n) > 0 ==> StepsTo(t, n) < StepsTo(s, n))
  {
    StepKeepsInv(s, step);
  }

  lemma {:induction false} TasksRun<T>(s: State<T>, steps: seq<Step<T>>, n: nat)
    requires WillDo(s, n) && Worked(s, steps) >= StepsTo(s, n)
    ensures var t := Run(s, steps); WillDo(t, n) && s.enqueued <= t.enqueued && |t.done| >= n
    decreases steps
  {
    if steps != [] {
      if Enabled(s, steps[0]) { TaskStep(s, steps[0], n); }
      TasksRun(Next(s, steps[0]), steps[1..], n);
    }
  }

  /**
   * With or without a stop, and whatever else is enqueued meanwhile: every task in the queue is done,
   * in order, once the worker has taken two steps for each.
   */
  lemma EveryTaskRuns<T>(s: State<T>, steps: seq<Step<T>>)
    requires Inv(s) && !s.worker.Exited? && Worked(s, steps) >= 2 * (|s.enqueued| - |s.done|)
    ensures s.enqueued <= Run(s, steps).done
  {
    TasksRun(s, steps, |s.enqueued|);
    var t := Run(s, steps);
    assert t.done <= t.enqueued;
  }

  lemma RunTwo<T>(s: State<T>, a: Step<T>, b: Step<T>)
    ensures Run(s, [a, b]) == Next(Next(s, a), b)
  {
    assert [a, b][1..] == [b] && [b][1..] == [];
    assert Run(s, [a, b]) == Run(Next(s, a), [b]) && Run(Next(s, a), [b]) == Run(Next(Next(s, a), b), []);
  }

  /** So a call of EnqueueIndexTask is carried out: its task is done behind those enqueued before it. */
  lemma CallIsCarriedOut<T>(s: State<T>, t: T, steps: seq<Step<T>>)
    requires Inv(s) && !s.worker.Exited?
    requires var called := Run(s, [Ensure(t), Push(|s.pending|)]);
             Worked(called, steps) >= 2 * (|s.enqueued| + 1 - |s.done|)
    ensures s.enqueued + [t] <= Run(Run(s, [Ensure(t), Push(|s.pending|)]), steps).done
  {
    var a, called := Do(s, Ensure(t)), Run(s, [Ensure(t), Push(|s.pending|)]);
    StepKeepsInv(s, Ensure(t));
    StepKeepsInv(a, Push(|s.pending|));
    RunTwo(s, Ensure(t), Push(|s.pending|));
    assert called == Do(a, Push(|s.pending|)) && called.enqueued == s.enqueued + [t];
    EveryTaskRuns(called, steps);
  }

  /** A wakeup without a reason changes nothing: the worker looks and waits again. */
  lemma SpuriousWakeup<T>(s: State<T>)
    requires Inv(s) && s.worker.Blocked?
    ensures Next(s, Wake).worker.Looking? && Run(s, [Wake, Look]) == s
  {
    RunTwo(s, Wake, Look);
  }

  /** The tasks of the calls of EnqueueIndexTask in a schedule. */
  function Calls<T>(steps: seq<Step<T>>): multiset<T> {
    if steps == [] then multiset{}
    else Called(steps[0]) + Calls(steps[1..])
  }

  lemma PushMoves<T>(pending: seq<T>, i: nat)
    requires i < |pending|
    ensures multiset(pending) == multiset(pending[..i] + pending[i + 1..]) + multiset{pending[i]}
  {
    assert pending == pending[..i] + [pending[i]] + pending[i + 1..];
  }

  /** The tasks on their way to the queue, and those that got there. */
  ghost function Known<T>(s: State<T>): multiset<T> {
    multiset(s.pending) + multiset(s.enqueued)
  }

  function Called<T>(step: Step<T>): multiset<T> {
    if step.Ensure? then multiset{step.task} else multiset{}
  }

  lemma CallIsKept<T>(s: State<T>, step: Step<T>)
    ensures Known(Next(s, step)) == Known(s) + Called(step)
  {
    if step.Push? && Enabled(s, step) { PushMoves(s.pending, step.i); }
  }

  lemma {:induction false} CallsAreKept<T>(s: State<T>, steps: seq<Step<T>>)
    ensures Known(Run(s, steps)) == Known(s) + Calls(steps)
    decreases steps
  {
    if steps != [] {
      CallIsKept(s, steps[0]);
      CallsAreKept(Next(s, steps[0]), steps[1..]);
    }
  }

  lemma {:induction false} FlagsAreKept<T>(s: State<T>, steps: seq<Step<T>>)
    ensures s.started || (exists i :: 0 <= i < |steps| && steps[i].Ensure?) ==> Run(s, steps).started
    ensures s.stop || Shutdown in steps ==> Run(s, steps).stop
    decreases steps
  {
    if steps != [] { FlagsAreKept(Next(s, steps[0]), steps[1..]); }
  }

  /**
   * Over every schedule each call's task is still on its way to the queue or enqueued, once, and the
   * first call starts the worker.
   */
  lemma NoCallIsDropped<T>(steps: seq<Step<T>>)
    ensures var s := Run(Init<T>(), steps);
            && multiset(s.pending) + multiset(s.enqueued) == Calls(steps)
            && ((exists i :: 0 <= i < |steps| && steps[i].Ensure?) ==> s.started) && (Shutdown in steps ==> s.stop)
  {
    CallsAreKept(Init<T>(), steps);
    FlagsAreKept(Init<T>(), steps);
  }

  /**
   * After a stop with no further enqueue the worker drains the queue and exits, once it has taken as
   * many steps as were left.
   */
  lemma {:induction false} ShutdownDrains<T>(s: State<T>, steps: seq<Step<T>>)
    requires Inv(s) && s.started && s.stop && Worked(s, steps) >= Moves(s) && (s.worker.Exited? ==> s.queue == [])
    requires forall i :: 0 <= i < |steps| ==> !steps[i].Push?
    ensures var t := Run(s, steps); t.worker.Exited? && t.queue == [] && t.done == s.enqueued
    decreases steps
  {
    if steps != [] {
      if Enabled(s, steps[0]) { StepKeepsInv(s, steps[0]); }
      ShutdownDrains(Next(s, steps[0]), steps[1..]);
    }
  }

  /** An enqueue that comes after the worker has exited is never run. */
  lemma {:induction false} LateEnqueueIsLost<T>(s: State<T>, steps: seq<Step<T>>)
    requires Inv(s) && s.worker.Exited?
    ensures var t := Run(s, steps); t.worker.Exited? && t.done == s.done
    decreases steps
  {
    if steps != [] {
      if Enabled(s, steps[0]) { StepKeepsInv(s, steps[0]); }
      LateEnqueueIsLost(Next(s, steps[0]), steps[1..]);
    }
  }
}
