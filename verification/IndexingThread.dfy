/**
 * The indexing thread: BuildIndex, Indexing, StopIndexingThread and WaitForIndexingComplete
 * as interleaved atomic steps over indexing_state_, indexing_mutex_ and indexing_cv_, with
 * any number of calling threads.
 */
module IndexingThread {

  datatype Flag = IDLE | STARTING | RUNNING | STOPPING

  /** Where a calling thread stands. stop: the wait was entered from StopIndexingThread. */
  datatype Client =
    | Out
    | Joining                  // BuildIndex won IDLE -> STARTING, joins the previous thread
    | Sleeping                 // StopIndexingThread saw STARTING
    | WantLock(stop: bool)
    | Checking(stop: bool)     // holds the mutex, about to evaluate the predicate
    | Decided(stop: bool)      // holds the mutex, the predicate was false
    | Blocked(stop: bool)      // in the condition variable, mutex released
    | Woken(stop: bool)
    | StopJoin                 // StopIndexingThread, about to join the thread

  /** Where an indexing body stands. */
  datatype Body =
    | Spawned
    | Unexpected               // the branch for a state other than STARTING
    | Training
    | Looping
    | Exiting                  // left the loop, IDLE not yet stored
    | Stored                   // IDLE stored, mutex not yet taken
    | Holding                  // inside the empty critical section
    | Released                 // about to notify
    | FailStored               // training failed: IDLE stored, about to notify without the mutex
    | Finished

  datatype Mutex = Free | ByClient(client: nat) | ByBody

  /**
   * bodies lists every thread ever spawned; indexing_thread_ is the last. missed is history: the
   * waiters a notification on the failure path passed by.
   */
  datatype State = State(flag: Flag, mutex: Mutex, clients: map<nat, Client>, bodies: seq<Body>, missed: set<nat>)

  datatype Step =
    | BuildCas(c: nat) | BuildSpawn(c: nat)
    | StopCas(c: nat) | StopRetry(c: nat) | StopReturn(c: nat)
    | WaitCall(c: nat) | Lock(c: nat) | Check(c: nat) | Block(c: nat) | Spurious(c: nat)
    | BodyCas(b: nat) | TrainOk(b: nat) | TrainFail(b: nat) | FailNotify(b: nat)
    | LoopCheck(b: nat) | ExitStore(b: nat) | ExitLock(b: nat) | ExitUnlock(b: nat) | ExitNotify(b: nat)

  function At(s: State, c: nat): Client {
    if c in s.clients then s.clients[c] else Out
  }

  /** What joining indexing_thread_ waits for. */
  function Last(s: State): Body {
    if s.bodies == [] then Finished else s.bodies[|s.bodies| - 1]
  }

  predicate BodyAt(s: State, b: nat, body: Body) {
    b < |s.bodies| && s.bodies[b] == body
  }

  predicate Enabled(s: State, step: Step) {
    match step
    case BuildCas(c) => At(s, c).Out?
    case BuildSpawn(c) => At(s, c).Joining? && Last(s).Finished?
    case StopCas(c) => At(s, c).Out?
    case StopRetry(c) => At(s, c).Sleeping?
    case StopReturn(c) => At(s, c).StopJoin? && Last(s).Finished?
    case WaitCall(c) => At(s, c).Out?
    case Lock(c) => (At(s, c).WantLock? || At(s, c).Woken?) && s.mutex.Free?
    case Check(c) => At(s, c).Checking?
    case Block(c) => At(s, c).Decided?
    case Spurious(c) => At(s, c).Blocked?
    case BodyCas(b) => BodyAt(s, b, Spawned)
    case TrainOk(b) => BodyAt(s, b, Training)
    case TrainFail(b) => BodyAt(s, b, Training)
    case FailNotify(b) => BodyAt(s, b, FailStored)
    case LoopCheck(b) => BodyAt(s, b, Looping)
    case ExitStore(b) => BodyAt(s, b, Exiting)
    case ExitLock(b) => BodyAt(s, b, Stored) && s.mutex.Free?
    case ExitUnlock(b) => BodyAt(s, b, Holding)
    case ExitNotify(b) => BodyAt(s, b, Released)
  }

  function Move(s: State, c: nat, to: Client): State {
    s.(clients := s.clients[c := to])
  }

  function MoveBody(s: State, b: nat, to: Body): State
    requires b < |s.bodies|
  {
    s.(bodies := s.bodies[b := to])
  }

  /** notify_all. */
  function NotifyAll(s: State): State {
    s.(clients := map c | c in s.clients :: if s.clients[c].Blocked? then Woken(s.clients[c].stop) else s.clients[c],
       missed := set c | c in s.missed && !At(s, c).Blocked?)
  }

  function DecidedClients(s: State): set<nat> {
    set c | c in s.clients && s.clients[c].Decided?
  }

  function Do(s: State, step: Step): State
    requires Enabled(s, step)
  {
    match step
    case BuildCas(c) => if s.flag == IDLE then Move(s, c, Joining).(flag := STARTING, missed := {}) else s
    case BuildSpawn(c) => Move(s, c, Out).(bodies := s.bodies + [Spawned])
    case StopCas(c) =>
      if s.flag == RUNNING then Move(s, c, WantLock(true)).(flag := STOPPING)
      else if s.flag == STARTING then Move(s, c, Sleeping)
      else Move(s, c, StopJoin)
    case StopRetry(c) =>
      if s.flag == RUNNING then Move(s, c, WantLock(true)).(flag := STOPPING) else Move(s, c, StopJoin)
    case StopReturn(c) => Move(s, c, Out)
    case WaitCall(c) => Move(s, c, WantLock(false))
    case Lock(c) => Move(s, c, Checking(At(s, c).stop)).(mutex := ByClient(c))
    case Check(c) =>
      if s.flag == IDLE then Move(s, c, if At(s, c).stop then StopJoin else Out).(mutex := Free)
      else Move(s, c, Decided(At(s, c).stop))
    case Block(c) => Move(s, c, Blocked(At(s, c).stop)).(mutex := Free)
    case Spurious(c) => Move(s, c, Woken(At(s, c).stop)).(missed := s.missed - {c})
    case BodyCas(b) =>
      if s.flag == STARTING then MoveBody(s, b, Training).(flag := RUNNING) else MoveBody(s, b, Unexpected)
    case TrainOk(b) => MoveBody(s, b, Looping)
    case TrainFail(b) => MoveBody(s, b, FailStored).(flag := IDLE)
    case FailNotify(b) =>
      var t := NotifyAll(MoveBody(s, b, Finished));
      if s.flag == IDLE then t.(missed := t.missed + DecidedClients(s)) else t
    case LoopCheck(b) => if s.flag == RUNNING then s else MoveBody(s, b, Exiting)
    case ExitStore(b) => MoveBody(s, b, Stored).(flag := IDLE)
    case ExitLock(b) => MoveBody(s, b, Holding).(mutex := ByBody)
    case ExitUnlock(b) => MoveBody(s, b, Released).(mutex := Free)
    case ExitNotify(b) => NotifyAll(MoveBody(s, b, Finished))
  }

  const INIT := State(IDLE, Free, map[], [], {})

  predicate Tail(body: Body) {
    body.Stored? || body.Holding? || body.Released? || body.FailStored?
  }

  /** At most one body is unfinished, the last one, and the flag says where it stands. */
  ghost predicate Bodies(s: State) {
    && (forall b :: 0 <= b < |s.bodies| - 1 ==> s.bodies[b].Finished?)
    && match Last(s)
       case Spawned => s.flag == STARTING
       case Unexpected => false
       case Training => s.flag == RUNNING || s.flag == STOPPING
       case Looping => s.flag == RUNNING || s.flag == STOPPING
       case Exiting => s.flag == STOPPING
       case _ => s.flag == IDLE || s.flag == STARTING
  }

  /** A BuildIndex that won its compare-and-swap is alone until it spawns. */
  ghost predicate Builders(s: State) {
    && (forall c :: At(s, c).Joining? ==> s.flag == STARTING && !Last(s).Spawned?)
    && (forall c, d :: At(s, c).Joining? && At(s, d).Joining? ==> c == d)
    && (s.flag == STARTING && !Last(s).Spawned? ==> exists c :: At(s, c).Joining?)
  }

  ghost predicate Mutual(s: State) {
    && (forall c :: At(s, c).Checking? || At(s, c).Decided? <==> s.mutex == ByClient(c))
    && (Last(s).Holding? <==> s.mutex.ByBody?)
  }

  /** While the flag is IDLE, a waiter has a notification ahead of it, or it is one that was missed. */
  ghost predicate Waiters(s: State) {
    && (forall c :: At(s, c).Blocked? && s.flag == IDLE ==> Tail(Last(s)) || c in s.missed)
    && (forall c :: At(s, c).Decided? && s.flag == IDLE ==> Last(s).Stored? || Last(s).FailStored? || c in s.missed)
    && (s.missed != {} ==> s.flag == IDLE && Last(s).Finished?)
    && (forall c :: c in s.missed ==> At(s, c).Decided? || At(s, c).Blocked?)
  }

  ghost predicate Inv(s: State) {
    Bodies(s) && Builders(s) && Mutual(s) && Waiters(s)
  }

  lemma InitInv()
    ensures Inv(INIT)
  {
  }

  predicate IsClientStep(step: Step) {
    step.StopCas? || step.StopRetry? || step.StopReturn? || step.WaitCall?
  }

  predicate IsWaitStep(step: Step) {
    step.Lock? || step.Check? || step.Block? || step.Spurious?
  }

  lemma NotifyAt(s: State)
    ensures forall c :: At(NotifyAll(s), c) == if At(s, c).Blocked? then Woken(At(s, c).stop) else At(s, c)
  {
  }

  lemma BuildKeepsInv(s: State, step: Step)
    requires Inv(s) && Enabled(s, step) && (step.BuildCas? || step.BuildSpawn?)
    ensures Inv(Do(s, step))
  {
    var t := Do(s, step);
    assert forall d :: d != step.c ==> At(t, d) == At(s, d);
    if step.BuildCas? && s.flag == IDLE { assert At(t, step.c).Joining?; }
  }

  lemma ClientKeepsInv(s: State, step: Step)
    requires Inv(s) && Enabled(s, step) && IsClientStep(step)
    ensures Inv(Do(s, step))
  {
    var t := Do(s, step);
    assert forall d :: d != step.c ==> At(t, d) == At(s, d);
    if s.flag == STARTING && !Last(s).Spawned? {
      var d :| At(s, d).Joining?;
      assert At(t, d).Joining?;
    }
  }

  lemma WaitKeepsInv(s: State, step: Step)
    requires Inv(s) && Enabled(s, step) && IsWaitStep(step)
    ensures Inv(Do(s, step))
  {
    var t := Do(s, step);
    assert forall d :: d != step.c ==> At(t, d) == At(s, d);
    if s.flag == STARTING && !Last(s).Spawned? {
      var d :| At(s, d).Joining?;
      assert At(t, d).Joining?;
    }
  }

  /** Only the last body can move. */
  lemma OnlyLastMoves(s: State, b: nat)
    requires Bodies(s) && b < |s.bodies| && !s.bodies[b].Finished?
    ensures b == |s.bodies| - 1 && Last(s) == s.bodies[b]
    ensures forall to :: Last(MoveBody(s, b, to)) == to
  {
  }

  lemma BodyKeepsInv(s: State, step: Step)
    requires Inv(s) && Enabled(s, step)
    requires step.BodyCas? || step.TrainOk? || step.TrainFail? || step.LoopCheck? || step.ExitStore? || step.ExitLock?
               || step.ExitUnlock?
    ensures Inv(Do(s, step))
  {
    OnlyLastMoves(s, step.b);
    var t := Do(s, step);
    assert forall c :: At(t, c) == At(s, c);
    if s.flag == STARTING && !Last(s).Spawned? {
      var d :| At(s, d).Joining?;
      assert At(t, d).Joining?;
    }
  }

  lemma NotifyKeepsInv(s: State, step: Step)
    requires Inv(s) && Enabled(s, step) && (step.FailNotify? || step.ExitNotify?)
    ensures Inv(Do(s, step))
  {
    OnlyLastMoves(s, step.b);
    var t := Do(s, step);
    NotifyAt(MoveBody(s, step.b, Finished));
    assert forall c :: At(t, c) == if At(s, c).Blocked? then Woken(At(s, c).stop) else At(s, c);
    if s.flag == STARTING {
      var d :| At(s, d).Joining?;
      assert At(t, d).Joining?;
    }
  }

  lemma StepKeepsInv(s: State, step: Step)
    requires Inv(s) && Enabled(s, step)
    ensures Inv(Do(s, step))
  {
    if step.BuildCas? || step.BuildSpawn? {
      BuildKeepsInv(s, step);
    } else if IsClientStep(step) {
      ClientKeepsInv(s, step);
    } else if IsWaitStep(step) {
      WaitKeepsInv(s, step);
    } else if step.FailNotify? || step.ExitNotify? {
      NotifyKeepsInv(s, step);
    } else {
      BodyKeepsInv(s, step);
    }
  }

  /** A step that is not enabled waits and changes nothing. */
  function Next(s: State, step: Step): State {
    if Enabled(s, step) then Do(s, step) else s
  }

  function Run(s: State, steps: seq<Step>): State
    decreases steps
  {
    if steps == [] then s else Run(Next(s, steps[0]), steps[1..])
  }

  lemma {:induction false} RunKeepsInv(s: State, steps: seq<Step>)
    requires Inv(s)
    ensures Inv(Run(s, steps))
    decreases steps
  {
    if steps != [] {
      if Enabled(s, steps[0]) { StepKeepsInv(s, steps[0]); }
      RunKeepsInv(Next(s, steps[0]), steps[1..]);
    }
  }

  predicate Active(body: Body) {
    body.Training? || body.Looping? || body.Exiting?
  }

  /** Over every interleaving at most one body is unfinished, and none is in the unexpected branch. */
  lemma OneBodyAtATime(steps: seq<Step>)
    ensures var s := Run(INIT, steps);
            && (forall b :: 0 <= b < |s.bodies| - 1 ==> s.bodies[b].Finished?)
            && (forall b :: 0 <= b < |s.bodies| ==> !s.bodies[b].Unexpected?)
            && ((exists b :: 0 <= b < |s.bodies| && Active(s.bodies[b])) <==> s.flag == RUNNING || s.flag == STOPPING)
  {
    InitInv();
    RunKeepsInv(INIT, steps);
    var s := Run(INIT, steps);
    if s.flag == RUNNING || s.flag == STOPPING { assert Active(s.bodies[|s.bodies| - 1]); }
  }

  /** When StopIndexingThread returns, no body is unfinished. */
  lemma StopReturnsAfterBody(steps: seq<Step>, c: nat)
    requires Enabled(Run(INIT, steps), StopReturn(c))
    ensures var s := Do(Run(INIT, steps), StopReturn(c)); forall b :: 0 <= b < |s.bodies| ==> s.bodies[b].Finished?
  {
    InitInv();
    RunKeepsInv(INIT, steps);
  }

  /** Nobody is left who would ever be woken: the flag is IDLE and the last body is done. */
  predicate Quiet(s: State) {
    s.flag == IDLE && Last(s).Finished?
  }

  predicate Waiting(s: State, c: nat) {
    At(s, c).Decided? || At(s, c).Blocked?
  }

  /** Over every interleaving, once all is quiet the waiters left behind are exactly the missed ones. */
  lemma LeftBehindAreMissed(steps: seq<Step>, c: nat)
    ensures var s := Run(INIT, steps); Quiet(s) ==> (Waiting(s, c) <==> c in s.missed)
  {
    InitInv();
    RunKeepsInv(INIT, steps);
  }

  /** A waiter is missed exactly when a failed training notifies between its check and its block. */
  lemma MissedIff(s: State, step: Step, c: nat)
    requires Inv(s) && Enabled(s, step) && c !in s.missed
    ensures c in Do(s, step).missed <==> step.FailNotify? && s.flag == IDLE && At(s, c).Decided?
  {
  }

  /** So when training never fails, no waiter is left behind: loop exit never loses one. */
  lemma {:induction false} LoopExitLosesNobody(s: State, steps: seq<Step>)
    requires Inv(s) && s.missed == {} && !Last(s).FailStored? && forall i :: 0 <= i < |steps| ==> !steps[i].TrainFail?
    ensures var t := Run(s, steps); t.missed == {} && (Quiet(t) ==> forall c :: !Waiting(t, c))
    decreases steps
  {
    if steps != [] {
      var t := Next(s, steps[0]);
      if Enabled(s, steps[0]) {
        StepKeepsInv(s, steps[0]);
        if steps[0].FailNotify? { OnlyLastMoves(s, steps[0].b); }
        NoFailure(s, steps[0]);
      }
      LoopExitLosesNobody(t, steps[1..]);
    }
  }

  lemma NoFailure(s: State, step: Step)
    requires Inv(s) && s.missed == {} && !Last(s).FailStored? && Enabled(s, step) && !step.TrainFail?
    ensures Do(s, step).missed == {} && !Last(Do(s, step)).FailStored?
  {
    if step.FailNotify? { OnlyLastMoves(s, step.b); }
  }

  /** A missed waiter stays until it wakes by chance or a later BuildIndex starts another round. */
  lemma MissedStays(s: State, step: Step, c: nat)
    requires Inv(s) && Enabled(s, step) && c in s.missed && step != Spurious(c) && !step.BuildCas?
    ensures Quiet(Do(s, step)) && c in Do(s, step).missed
  {
    StepKeepsInv(s, step);
  }

  // Stop requests that ask nobody to stop.

  /** A stop request past its last attempt: it waits for the thread, or joins it. */
  predicate Past(client: Client) {
    || client.StopJoin?
    || ((client.WantLock? || client.Checking? || client.Decided? || client.Blocked? || client.Woken?) && client.stop)
  }

  /** The request waits for a thread that starts or runs and was not asked to stop. */
  predicate Unheard(s: State, c: nat) {
    Past(At(s, c)) && (s.flag == STARTING || s.flag == RUNNING)
  }

  /** This step goes past the request: its second attempt meets STARTING again, or a BuildIndex overtakes it. */
  predicate GoesPast(s: State, step: Step, c: nat) {
    || (step == StopRetry(c) && At(s, c).Sleeping? && s.flag == STARTING)
    || (step.BuildCas? && At(s, step.c).Out? && s.flag == IDLE && Past(At(s, c)))
  }

  /** This step ends the wait: another request stops the thread, its training fails, or the request returns. */
  predicate Relieves(s: State, step: Step, c: nat) {
    Enabled(s, step)
        && (((step.StopCas? || step.StopRetry?) && s.flag == RUNNING) || step.TrainFail? || step == StopReturn(c))
  }

  predicate IsBodyStep(step: Step) {
    || step.BodyCas? || step.TrainOk? || step.TrainFail? || step.FailNotify? || step.LoopCheck? || step.ExitStore?
    || step.ExitLock? || step.ExitUnlock? || step.ExitNotify?
  }

  lemma UnheardBodyStep(s: State, step: Step, c: nat)
    requires Inv(s) && Enabled(s, step) && IsBodyStep(step)
    ensures Unheard(Do(s, step), c) <==> Unheard(s, c) && !step.TrainFail?
  {
    OnlyLastMoves(s, step.b);
    if step.FailNotify? || step.ExitNotify? { NotifyAt(MoveBody(s, step.b, Finished)); }
  }

  lemma UnheardStep(s: State, step: Step, c: nat)
    requires Inv(s) && Enabled(s, step)
    ensures Unheard(Do(s, step), c) <==> GoesPast(s, step, c) || (Unheard(s, c) && !Relieves(s, step, c))
  {
    if IsBodyStep(step) {
      UnheardBodyStep(s, step, c);
    } else {
      assert forall d :: d != step.c ==> At(Do(s, step), d) == At(s, d);
    }
  }

  /** Step i of the schedule went past the request, and no later step relieved it. */
  ghost predicate DroppedAt(steps: seq<Step>, c: nat, i: nat) {
    && i < |steps| && GoesPast(Run(INIT, steps[..i]), steps[i], c)
    && forall j :: i < j < |steps| ==> !Relieves(Run(INIT, steps[..j]), steps[j], c)
  }

  lemma DroppedSnoc(steps: seq<Step>, c: nat, i: nat)
    requires |steps| > 0
    ensures var n := |steps| - 1;
            DroppedAt(steps, c, i) <==>
              if i == n then GoesPast(Run(INIT, steps[..n]), steps[n], c)
              else DroppedAt(steps[..n], c, i) && !Relieves(Run(INIT, steps[..n]), steps[n], c)
  {
    var n := |steps| - 1;
    assert forall j :: 0 <= j <= n ==> steps[..n][..j] == steps[..j];
    if i < n && DroppedAt(steps, c, i) {
      assert steps[..n][i] == steps[i];
      forall j | i < j < n ensures !Relieves(Run(INIT, steps[..n][..j]), steps[..n][j], c) {
        assert steps[..n][j] == steps[j];
      }
    }
    if i < n && DroppedAt(steps[..n], c, i) && !Relieves(Run(INIT, steps[..n]), steps[n], c) {
      forall j | i < j < |steps| ensures !Relieves(Run(INIT, steps[..j]), steps[j], c) {
        if j < n { assert steps[..n][j] == steps[j]; }
      }
    }
  }

  /**
   * Over every schedule: a stop request waits for a thread nobody asked to stop if and only if some step
   * went past it, and no step since has relieved it.
   */
  lemma {:induction false} UnheardIffDropped(steps: seq<Step>, c: nat)
    ensures Unheard(Run(INIT, steps), c) <==> exists i :: DroppedAt(steps, c, i)
    decreases |steps|
  {
    if steps != [] {
      var n := |steps| - 1;
      var before, step := Run(INIT, steps[..n]), steps[n];
      assert steps == steps[..n] + [step];
      RunSnoc(INIT, steps[..n], step);
      InitInv();
      RunKeepsInv(INIT, steps[..n]);
      if Enabled(before, step) { UnheardStep(before, step, c); }
      UnheardIffDropped(steps[..n], c);
      forall i: nat { DroppedSnoc(steps, c, i); }
      if GoesPast(before, step, c) { assert DroppedAt(steps, c, n); }
      if Unheard(before, c) && !Relieves(before, step, c) {
        var i :| DroppedAt(steps[..n], c, i);
        assert DroppedAt(steps, c, i);
      }
    }
  }

  /** Inside StopIndexingThread or WaitForIndexingComplete, before the return. */
  predicate Inside(client: Client) {
    !client.Out? && !client.Joining? && !client.Sleeping?
  }

  /** Once a body loops and nobody asks it to stop, whoever waits for it waits on, under every schedule. */
  lemma {:induction false} UnstoppedRunsOn(s: State, steps: seq<Step>, c: nat)
    requires Inv(s) && s.flag == RUNNING && Last(s).Looping? && Inside(At(s, c))
    requires forall i :: 0 <= i < |steps| ==> !steps[i].StopCas? && !steps[i].StopRetry?
    ensures var t := Run(s, steps); t.flag == RUNNING && Last(t).Looping? && Inside(At(t, c))
    decreases steps
  {
    if steps != [] {
      if Enabled(s, steps[0]) {
        StepKeepsInv(s, steps[0]);
        UnstoppedStep(s, steps[0], c);
      }
      UnstoppedRunsOn(Next(s, steps[0]), steps[1..], c);
    }
  }

  lemma UnstoppedStep(s: State, step: Step, c: nat)
    requires Inv(s) && s.flag == RUNNING && Last(s).Looping? && Inside(At(s, c)) && Enabled(s, step)
    requires !step.StopCas? && !step.StopRetry?
    ensures var t := Do(s, step); t.flag == RUNNING && Last(t).Looping? && Inside(At(t, c))
  {
    if step.FailNotify? || step.ExitNotify? || step.TrainFail? || step.BodyCas? || step.TrainOk?
       || step.ExitStore? || step.ExitLock? || step.ExitUnlock? || step.LoopCheck? {
      OnlyLastMoves(s, step.b);
    }
  }

  ghost predicate Reachable(s: State) {
    exists steps :: Run(INIT, steps) == s
  }

  lemma {:induction false} RunSnoc(s: State, steps: seq<Step>, step: Step)
    ensures Run(s, steps + [step]) == Next(Run(s, steps), step)
    decreases steps
  {
    if steps == [] {
      assert [] + [step] == [step] && [step][1..] == [];
    } else {
      assert (steps + [step])[1..] == steps[1..] + [step];
      RunSnoc(Next(s, steps[0]), steps[1..], step);
    }
  }

  lemma Extend(s: State, step: Step, t: State)
    requires Reachable(s) && Enabled(s, step) && Do(s, step) == t
    ensures Reachable(t)
  {
    var steps :| Run(INIT, steps) == s;
    RunSnoc(INIT, steps, step);
    assert Run(INIT, steps + [step]) == t;
  }

  /** A builder, client 0, and a stopper, client 1. */
  function Two(flag: Flag, mutex: Mutex, builder: Client, stopper: Client, bodies: seq<Body>): State {
    State(flag, mutex, map[0 := builder, 1 := stopper], bodies, {})
  }

  lemma MoveTwo(s: State, builder: Client, stopper: Client, to: Client)
    requires s.clients == map[0 := builder, 1 := stopper]
    ensures At(s, 0) == builder && At(s, 1) == stopper
    ensures Move(s, 0, to).clients == map[0 := to, 1 := stopper]
    ensures Move(s, 1, to).clients == map[0 := builder, 1 := to]
  {
  }

  lemma ReachStarting(stopper: Client)
    requires stopper == Out || stopper == StopJoin
    ensures Reachable(Two(STARTING, Free, Joining, stopper, []))
  {
    assert Run(INIT, []) == INIT;
    var a := State(STARTING, Free, map[0 := Joining], [], {});
    Extend(INIT, BuildCas(0), a);
    var b := Two(STARTING, Free, Joining, Sleeping, []);
    Extend(a, StopCas(1), b);
    MoveTwo(b, Joining, Sleeping, StopJoin);
    var c := Two(STARTING, Free, Joining, StopJoin, []);
    Extend(b, StopRetry(1), c);
    if stopper == Out { ReachStartingOut(); }
  }

  lemma ReachStartingOut()
    ensures Reachable(Two(STARTING, Free, Joining, Out, []))
  {
    assert Run(INIT, []) == INIT;
    var a := State(IDLE, Free, map[1 := StopJoin], [], {});
    Extend(INIT, StopCas(1), a);
    var b := State(IDLE, Free, map[1 := Out], [], {});
    Extend(a, StopReturn(1), b);
    Extend(b, BuildCas(0), Two(STARTING, Free, Joining, Out, []));
  }

  lemma ReachTraining(stopper: Client)
    requires stopper == Out || stopper == StopJoin
    ensures Reachable(Two(RUNNING, Free, Out, stopper, [Training]))
  {
    ReachStarting(stopper);
    var a := Two(STARTING, Free, Joining, stopper, []);
    MoveTwo(a, Joining, stopper, Out);
    var b := Two(STARTING, Free, Out, stopper, [Spawned]);
    Extend(a, BuildSpawn(0), b);
    Extend(b, BodyCas(0), Two(RUNNING, Free, Out, stopper, [Training]));
  }

  /** A stop request meets a body that trains or loops, checks the flag and decides to wait. */
  lemma ReachDecided(body: Body)
    requires Reachable(Two(RUNNING, Free, Out, Out, [body])) && (body.Training? || body.Looping?)
    ensures Reachable(Two(STOPPING, ByClient(1), Out, Decided(true), [body]))
  {
    var a := Two(RUNNING, Free, Out, Out, [body]);
    MoveTwo(a, Out, Out, WantLock(true));
    var b := Two(STOPPING, Free, Out, WantLock(true), [body]);
    Extend(a, StopCas(1), b);
    MoveTwo(b, Out, WantLock(true), Checking(true));
    var c := Two(STOPPING, ByClient(1), Out, Checking(true), [body]);
    Extend(b, Lock(1), c);
    MoveTwo(c, Out, Checking(true), Decided(true));
    Extend(c, Check(1), Two(STOPPING, ByClient(1), Out, Decided(true), [body]));
  }

  const LOST := State(IDLE, Free, map[0 := Out, 1 := Blocked(true)], [Finished], {1})
  const DROPPED := Two(RUNNING, Free, Out, StopJoin, [Looping])
  const NEXT_ROUND := Two(RUNNING, Free, Out, Blocked(true), [Finished, Looping])

  /** A training that fails while a stop request is between check and block loses the request's wakeup. */
  lemma FailedTrainingCanLoseAWaiter()
    ensures Reachable(LOST) && Quiet(LOST) && Waiting(LOST, 1)
  {
    ReachTraining(Out);
    ReachDecided(Training);
    var a := Two(STOPPING, ByClient(1), Out, Decided(true), [Training]);
    var b := Two(IDLE, ByClient(1), Out, Decided(true), [FailStored]);
    Extend(a, TrainFail(0), b);
    var c := Two(IDLE, ByClient(1), Out, Decided(true), [Finished]).(missed := {1});
    NotifyAt(MoveBody(b, 0, Finished));
    assert NotifyAll(MoveBody(b, 0, Finished)).clients == c.clients;
    assert DecidedClients(b) == {1};
    Extend(b, FailNotify(0), c);
    MoveTwo(c, Out, Decided(true), Blocked(true));
    Extend(c, Block(1), LOST);
  }

  /** A stop request that meets STARTING twice joins a loop nobody was asked to leave. */
  lemma StopDuringStartIsDropped()
    ensures Reachable(DROPPED) && Unheard(DROPPED, 1) && Inside(At(DROPPED, 1)) && Last(DROPPED).Looping?
  {
    ReachTraining(StopJoin);
    Extend(Two(RUNNING, Free, Out, StopJoin, [Training]), TrainOk(0), DROPPED);
  }

  lemma Then(steps: seq<Step>, s: State, step: Step, t: State)
    requires Run(INIT, steps) == s && Enabled(s, step) && Do(s, step) == t
    ensures Run(INIT, steps + [step]) == t
  {
    RunSnoc(INIT, steps, step);
  }

  /** A BuildIndex that overtakes a request between its attempt at IDLE and its join has the same effect. */
  lemma OvertakenJoinIsDropped()
    ensures Run(INIT, [StopCas(1), BuildCas(0), BuildSpawn(0), BodyCas(0), TrainOk(0)]) == DROPPED
              && Unheard(DROPPED, 1)
  {
    var a := State(IDLE, Free, map[1 := StopJoin], [], {});
    Then([], INIT, StopCas(1), a);
    var b := Two(STARTING, Free, Joining, StopJoin, []);
    Then([] + [StopCas(1)], a, BuildCas(0), b);
    OvertakenRuns([] + [StopCas(1)] + [BuildCas(0)]);
    assert [] + [StopCas(1)] + [BuildCas(0)] + [BuildSpawn(0)] + [BodyCas(0)] + [TrainOk(0)]
           == [StopCas(1), BuildCas(0), BuildSpawn(0), BodyCas(0), TrainOk(0)];
  }

  lemma OvertakenRuns(steps: seq<Step>)
    requires Run(INIT, steps) == Two(STARTING, Free, Joining, StopJoin, [])
    ensures Run(INIT, steps + [BuildSpawn(0)] + [BodyCas(0)] + [TrainOk(0)]) == DROPPED
  {
    var b := Two(STARTING, Free, Joining, StopJoin, []);
    MoveTwo(b, Joining, StopJoin, Out);
    var c := Two(STARTING, Free, Out, StopJoin, [Spawned]);
    Then(steps, b, BuildSpawn(0), c);
    var d := Two(RUNNING, Free, Out, StopJoin, [Training]);
    Then(steps + [BuildSpawn(0)], c, BodyCas(0), d);
    Then(steps + [BuildSpawn(0)] + [BodyCas(0)], d, TrainOk(0), DROPPED);
  }

  lemma ReachLeftLoop()
    ensures Reachable(Two(STOPPING, Free, Out, Blocked(true), [Exiting]))
  {
    ReachTraining(Out);
    Extend(Two(RUNNING, Free, Out, Out, [Training]), TrainOk(0), Two(RUNNING, Free, Out, Out, [Looping]));
    ReachDecided(Looping);
    var a := Two(STOPPING, ByClient(1), Out, Decided(true), [Looping]);
    MoveTwo(a, Out, Decided(true), Blocked(true));
    var b := Two(STOPPING, Free, Out, Blocked(true), [Looping]);
    Extend(a, Block(1), b);
    Extend(b, LoopCheck(0), Two(STOPPING, Free, Out, Blocked(true), [Exiting]));
  }

  /** The body stores IDLE; a BuildIndex follows before it notifies. */
  lemma ReachOvertaken()
    ensures Reachable(Two(STARTING, ByBody, Joining, Blocked(true), [Holding]))
  {
    ReachLeftLoop();
    var a := Two(STOPPING, Free, Out, Blocked(true), [Exiting]);
    var b := Two(IDLE, Free, Out, Blocked(true), [Stored]);
    Extend(a, ExitStore(0), b);
    MoveTwo(b, Out, Blocked(true), Joining);
    var c := Two(STARTING, Free, Joining, Blocked(true), [Stored]);
    Extend(b, BuildCas(0), c);
    Extend(c, ExitLock(0), Two(STARTING, ByBody, Joining, Blocked(true), [Holding]));
  }

  lemma ReachNotified()
    ensures Reachable(Two(STARTING, Free, Joining, Woken(true), [Finished]))
  {
    ReachOvertaken();
    var b := Two(STARTING, ByBody, Joining, Blocked(true), [Holding]);
    var c := Two(STARTING, Free, Joining, Blocked(true), [Released]);
    Extend(b, ExitUnlock(0), c);
    var d := Two(STARTING, Free, Joining, Woken(true), [Finished]);
    NotifyAt(MoveBody(c, 0, Finished));
    assert NotifyAll(MoveBody(c, 0, Finished)).clients == d.clients;
    Extend(c, ExitNotify(0), d);
  }

  lemma ReachAsleepAgain()
    ensures Reachable(Two(STARTING, Free, Joining, Blocked(true), [Finished]))
  {
    ReachNotified();
    var a := Two(STARTING, Free, Joining, Woken(true), [Finished]);
    MoveTwo(a, Joining, Woken(true), Checking(true));
    var b := Two(STARTING, ByClient(1), Joining, Checking(true), [Finished]);
    Extend(a, Lock(1), b);
    MoveTwo(b, Joining, Checking(true), Decided(true));
    var c := Two(STARTING, ByClient(1), Joining, Decided(true), [Finished]);
    Extend(b, Check(1), c);
    MoveTwo(c, Joining, Decided(true), Blocked(true));
    Extend(c, Block(1), Two(STARTING, Free, Joining, Blocked(true), [Finished]));
  }

  /**
   * A BuildIndex that slips in between the IDLE store and the waiter's check sends the waiter back
   * to sleep, into a round nobody was asked to stop.
   */
  lemma StopCanSleepThroughItsRound()
    ensures Reachable(NEXT_ROUND) && Unheard(NEXT_ROUND, 1) && Inside(At(NEXT_ROUND, 1)) && Last(NEXT_ROUND).Looping?
  {
    ReachAsleepAgain();
    var a := Two(STARTING, Free, Joining, Blocked(true), [Finished]);
    MoveTwo(a, Joining, Blocked(true), Out);
    var b := Two(STARTING, Free, Out, Blocked(true), [Finished, Spawned]);
    Extend(a, BuildSpawn(0), b);
    var c := Two(RUNNING, Free, Out, Blocked(true), [Finished, Training]);
    Extend(b, BodyCas(1), c);
    Extend(c, TrainOk(1), NEXT_ROUND);
  }
}
