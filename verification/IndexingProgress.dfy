/**
 * When calls on the indexing thread return, and that they do: a stop request or a wait is left only
 * when the thread it waits for is done, an asked body always comes to its end, and then everybody
 * who was not missed gets out.
 */
module IndexingProgress {
  import opened IndexingThread

  /** The client is inside StopIndexingThread. */
  predicate InStop(client: Client) {
    client.Sleeping? || Past(client)
  }

  /** The client is inside WaitForIndexingComplete, called from outside. */
  predicate InWait(client: Client) {
    (client.WantLock? || client.Checking? || client.Decided? || client.Blocked? || client.Woken?) && !client.stop
  }

  lemma OthersStay(s: State, step: Step, c: nat)
    requires Enabled(s, step)
    requires if IsBodyStep(step) then !At(s, c).Blocked? else step.c != c
    ensures At(Do(s, step), c) == At(s, c)
  {
    if step.FailNotify? || step.ExitNotify? { NotifyAt(MoveBody(s, step.b, Finished)); }
  }

  lemma BlockedStays(s: State, step: Step, c: nat)
    requires Enabled(s, step) && IsBodyStep(step) && At(s, c).Blocked?
    ensures At(Do(s, step), c) == Blocked(At(s, c).stop) || At(Do(s, step), c) == Woken(At(s, c).stop)
  {
    if step.FailNotify? || step.ExitNotify? { NotifyAt(MoveBody(s, step.b, Finished)); }
  }

  /** A stop request begins with its call, and whoever leaves one leaves it with every body finished. */
  lemma StopIsLeftAfterBodies(steps: seq<Step>, step: Step, c: nat)
    ensures var s := Run(INIT, steps);
            var t := Next(s, step);
            && (step == StopCas(c) && At(s, c).Out? ==> InStop(At(t, c)))
            && (InStop(At(s, c)) && !InStop(At(t, c)) ==>
                  At(t, c).Out? && forall b :: 0 <= b < |t.bodies| ==> t.bodies[b].Finished?)
  {
    InitInv();
    RunKeepsInv(INIT, steps);
    if Enabled(Run(INIT, steps), step) { LeavesStop(Run(INIT, steps), step, c); }
  }

  lemma LeavesStop(s: State, step: Step, c: nat)
    requires Inv(s) && Enabled(s, step)
    ensures var t := Do(s, step);
            && (step == StopCas(c) ==> InStop(At(t, c)))
            && (InStop(At(s, c)) && !InStop(At(t, c)) ==>
                  At(t, c).Out? && forall b :: 0 <= b < |t.bodies| ==> t.bodies[b].Finished?)
  {
    if IsBodyStep(step) {
      if At(s, c).Blocked? { BlockedStays(s, step, c); } else { OthersStay(s, step, c); }
    } else if step.c != c {
      OthersStay(s, step, c);
    } else {
      LeavesByOwnStep(s, step);
    }
  }

  lemma LeavesByOwnStep(s: State, step: Step)
    requires Bodies(s) && Enabled(s, step) && !IsBodyStep(step)
    ensures var t := Do(s, step);
            && (step.StopCas? ==> InStop(At(t, step.c)))
            && (InStop(At(s, step.c)) && !InStop(At(t, step.c)) ==>
                  At(t, step.c).Out? && forall b :: 0 <= b < |t.bodies| ==> t.bodies[b].Finished?)
  {
  }

  /** A wait begins with its call, and whoever leaves one leaves it while the flag is IDLE. */
  lemma WaitIsLeftAtIdle(s: State, step: Step, c: nat)
    ensures var t := Next(s, step);
            && (step == WaitCall(c) && At(s, c).Out? ==> InWait(At(t, c)))
            && (InWait(At(s, c)) && !InWait(At(t, c)) ==> At(t, c).Out? && s.flag == IDLE)
  {
    if Enabled(s, step) {
      if IsBodyStep(step) {
        if At(s, c).Blocked? { BlockedStays(s, step, c); } else { OthersStay(s, step, c); }
      } else if step.c != c {
        OthersStay(s, step, c);
      }
    }
  }

  // An asked body ends.

  function BodyRank(body: Body): nat {
    match body
    case Spawned => 8
    case Training => 7
    case Looping => 6
    case Exiting => 5
    case Stored => 4
    case Holding => 3
    case Released => 2
    case FailStored => 1
    case Unexpected => 0
    case Finished => 0
  }

  function HolderRank(s: State): nat {
    if s.mutex.ByClient? && At(s, s.mutex.client).Checking? then 2
    else if s.mutex.ByClient? && At(s, s.mutex.client).Decided? then 1
    else 0
  }

  /** What is left until the last body is finished: its own steps, and those of whoever holds the mutex. */
  function BodyLeft(s: State): nat {
    3 * BodyRank(Last(s)) + HolderRank(s)
  }

  /** A step of a body, or of the client that holds the mutex. */
  predicate Pushes(s: State, step: Step) {
    IsBodyStep(step) || ((step.Check? || step.Block?) && s.mutex == ByClient(step.c))
  }

  /** The last body was asked to stop, or is past its loop. */
  predicate Ending(s: State) {
    s.flag == STOPPING || Tail(Last(s))
  }

  /** Such a body always has a step ahead, its own or that of the mutex's holder. */
  lemma EndingStepsOn(s: State) returns (step: Step)
    requires Inv(s) && Ending(s)
    ensures Enabled(s, step) && Pushes(s, step)
  {
    var b := |s.bodies| - 1;
    match Last(s)
    case Training => step := TrainOk(b);
    case Looping => step := LoopCheck(b);
    case Exiting => step := ExitStore(b);
    case Holding => step := ExitUnlock(b);
    case Released => step := ExitNotify(b);
    case FailStored => step := FailNotify(b);
    case Stored =>
      if s.mutex.Free? {
        step := ExitLock(b);
      } else {
        var c := s.mutex.client;
        step := if At(s, c).Checking? then Check(c) else Block(c);
      }
  }

  /** And each such step brings its end nearer and leaves it on its way. */
  lemma EndingStep(s: State, step: Step)
    requires Inv(s) && Ending(s) && Enabled(s, step) && Pushes(s, step)
    ensures BodyLeft(Do(s, step)) < BodyLeft(s)
    ensures Ending(Do(s, step)) || Last(Do(s, step)).Finished?
  {
    if IsBodyStep(step) {
      HolderStays(s, step);
      RankFalls(s, step);
    } else {
      assert Last(Do(s, step)) == Last(s);
    }
  }

  lemma HolderStays(s: State, step: Step)
    requires Mutual(s) && Enabled(s, step) && IsBodyStep(step)
    ensures HolderRank(Do(s, step)) <= HolderRank(s)
  {
    var t := Do(s, step);
    if t.mutex.ByClient? {
      var c := t.mutex.client;
      assert At(s, c).Checking? || At(s, c).Decided?;
      OthersStay(s, step, c);
    }
  }

  lemma RankFalls(s: State, step: Step)
    requires Bodies(s) && Ending(s) && Enabled(s, step) && IsBodyStep(step)
    ensures BodyRank(Last(Do(s, step))) < BodyRank(Last(s))
    ensures Ending(Do(s, step)) || Last(Do(s, step)).Finished?
  {
    OnlyLastMoves(s, step.b);
  }

  /** How many of such steps a schedule takes. */
  function Pushed(s: State, steps: seq<Step>): nat
    decreases steps
  {
    if steps == [] then 0
    else (if Enabled(s, steps[0]) && Pushes(s, steps[0]) then 1 else 0) + Pushed(Next(s, steps[0]), steps[1..])
  }

  /**
   * Over every schedule of these steps, a body that was asked to stop is finished once as many of them
   * are taken as were left, and the flag is IDLE or another round has been started.
   */
  lemma {:induction false} AskedBodyFinishes(s: State, steps: seq<Step>)
    requires Inv(s) && (Ending(s) || Last(s).Finished?) && Pushed(s, steps) >= BodyLeft(s)
    requires forall i :: 0 <= i < |steps| ==> IsBodyStep(steps[i]) || steps[i].Check? || steps[i].Block?
    ensures Last(Run(s, steps)).Finished? && Run(s, steps).flag != RUNNING && Run(s, steps).flag != STOPPING
    decreases steps
  {
    if steps != [] {
      if Enabled(s, steps[0]) {
        StepKeepsInv(s, steps[0]);
        if Last(s).Finished? {
          FinishedStays(s, steps[0]);
        } else {
          HolderSteps(s, steps[0]);
          EndingStep(s, steps[0]);
        }
      }
      AskedBodyFinishes(Next(s, steps[0]), steps[1..]);
    }
  }

  lemma HolderSteps(s: State, step: Step)
    requires Inv(s) && Enabled(s, step) && (IsBodyStep(step) || step.Check? || step.Block?)
    ensures Pushes(s, step)
  {
  }

  lemma FinishedStays(s: State, step: Step)
    requires Inv(s) && Last(s).Finished? && Enabled(s, step) && (IsBodyStep(step) || step.Check? || step.Block?)
    ensures Last(Do(s, step)).Finished? && BodyLeft(Do(s, step)) < BodyLeft(s)
  {
    if IsBodyStep(step) { OnlyLastMoves(s, step.b); }
  }

  // Then everybody gets out.

  function ClientLeft(client: Client): nat {
    match client
    case Out => 0
    case StopJoin => 1
    case Checking(_) => 2
    case Sleeping => 2
    case WantLock(_) => 3
    case Woken(_) => 3
    case Joining => 0
    case Decided(_) => 0
    case Blocked(_) => 0
  }

  /** What is left until the call returns, once all is quiet. */
  function CallLeft(s: State, c: nat): nat {
    3 * ClientLeft(At(s, c)) + HolderRank(s)
  }

  /** A step of the call, or of a client at the mutex. */
  predicate Frees(step: Step, c: nat) {
    step == StopRetry(c) || step == StopReturn(c) || step == Lock(c) || step.Check? || step.Block?
  }

  /** Once all is quiet, whoever is inside a call and was not missed has a step ahead, its own or the mutex holder's. */
  lemma QuietStepsOn(s: State, c: nat) returns (step: Step)
    requires Inv(s) && Quiet(s) && c !in s.missed && !At(s, c).Out?
    ensures Frees(step, c) && Enabled(s, step)
  {
    if At(s, c).StopJoin? {
      step := StopReturn(c);
    } else if At(s, c).Sleeping? {
      step := StopRetry(c);
    } else if s.mutex.Free? {
      step := Lock(c);
    } else {
      var d := s.mutex.client;
      step := if At(s, d).Checking? then Check(d) else Block(d);
    }
  }

  lemma QuietStep(s: State, step: Step, c: nat)
    requires Inv(s) && Quiet(s) && c !in s.missed && Frees(step, c) && Enabled(s, step)
    ensures var t := Do(s, step); Quiet(t) && c !in t.missed && CallLeft(t, c) < CallLeft(s, c)
  {
    if step.c != c { OthersStay(s, step, c); }
  }

  /** A missed waiter that wakes by chance is missed no longer: it gets out like everybody else. */
  lemma ChanceWakeupRescues(s: State, steps: seq<Step>, c: nat)
    requires Inv(s) && Quiet(s) && At(s, c).Blocked?
    requires Freed(Do(s, Spurious(c)), steps) >= 9 + HolderRank(s)
    requires forall i :: 0 <= i < |steps| ==> Frees(steps[i], c)
    ensures At(Run(Do(s, Spurious(c)), steps), c).Out?
  {
    StepKeepsInv(s, Spurious(c));
    var t := Do(s, Spurious(c));
    assert At(t, c).Woken? && Quiet(t) && c !in t.missed;
    assert HolderRank(t) <= HolderRank(s);
    QuietCallReturns(t, steps, c);
  }

  function Freed(s: State, steps: seq<Step>): nat
    decreases steps
  {
    if steps == [] then 0 else (if Enabled(s, steps[0]) then 1 else 0) + Freed(Next(s, steps[0]), steps[1..])
  }

  /**
   * So once all is quiet every stop request and every wait that was not missed returns, over every
   * schedule of these steps, when as many are taken as were left.
   */
  lemma {:induction false} QuietCallReturns(s: State, steps: seq<Step>, c: nat)
    requires Inv(s) && Quiet(s) && c !in s.missed && Freed(s, steps) >= CallLeft(s, c)
    requires forall i :: 0 <= i < |steps| ==> Frees(steps[i], c)
    ensures At(Run(s, steps), c).Out?
    decreases steps
  {
    if steps == [] {
      if !At(s, c).Out? { var step := QuietStepsOn(s, c); }
    } else {
      if Enabled(s, steps[0]) {
        StepKeepsInv(s, steps[0]);
        QuietStep(s, steps[0], c);
      }
      QuietCallReturns(Next(s, steps[0]), steps[1..], c);
    }
  }
}
