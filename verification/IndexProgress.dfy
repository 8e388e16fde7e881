/**
 * What requests, removals and restarts lead to: the maintenance worker and Load always have a step
 * until their work is done, a requested index ends READY and exact, a removed one leaves nothing,
 * and a crash at any point of a build is repaired.
 */
module IndexProgress {
  import opened KeyLayout
  import Documents
  import opened IndexLifecycle

  lemma {:induction false} RunConcat(ws: Widths, s: State, a: seq<Step>, b: seq<Step>)
    ensures Run(ws, s, a + b) == Run(ws, Run(ws, s, a), b)
    decreases a
  {
    if a == [] {
      assert a + b == b;
    } else {
      assert (a + b)[1..] == a[1..] + b;
      RunConcat(ws, Next(ws, s, a[0]), a[1..], b);
    }
  }

  lemma RunTwo(ws: Widths, s: State, a: Step, b: Step)
    ensures Run(ws, s, [a, b]) == Next(ws, Next(ws, s, a), b)
  {
    RunCons(ws, s, a, [b]);
    RunCons(ws, Next(ws, s, a), b, []);
    assert [a] + [b] == [a, b] && [b] + [] == [b];
  }

  lemma RunThree(ws: Widths, s: State, a: Step, b: Step, c: Step)
    ensures Run(ws, s, [a, b, c]) == Next(ws, Next(ws, Next(ws, s, a), b), c)
  {
    RunCons(ws, s, a, [b, c]);
    RunTwo(ws, Next(ws, s, a), b, c);
    assert [a] + [b, c] == [a, b, c];
  }

  predicate NoCrash(steps: seq<Step>) {
    forall i :: 0 <= i < |steps| ==> !steps[i].Crash?
  }

  lemma {:induction false} NoCrashKeepsInv(ws: Widths, s: State, steps: seq<Step>)
    requires Inv(ws, s) && NoCrash(steps)
    ensures Inv(ws, Run(ws, s, steps))
  {
    NoCrashIsCovered(ws, s, steps);
    ReadyStaysExact(ws, s, steps);
  }

  lemma {:induction false} NoCrashIsCovered(ws: Widths, s: State, steps: seq<Step>)
    requires NoCrash(steps)
    ensures CoveredCrashes(ws, s, steps)
    decreases steps
  {
    if steps != [] { NoCrashIsCovered(ws, Next(ws, s, steps[0]), steps[1..]); }
  }

  // The maintenance worker.

  predicate IsWork(step: Step) {
    step.Take? || step.Insert? || step.DropOld? || step.Scan? || step.Flip? || step.Unmark? || step.RemoveUnmark?
    || step.RemoveDrop?
  }

  /** The worker's steps for the tasks of a queue, when the frontier is at m. */
  function QueueCost(queue: seq<Task>, m: nat): nat {
    if queue == [] then 0 else (if queue[0].Add? then m + 6 else 3) + QueueCost(queue[1..], m)
  }

  /** How many steps the worker has to take until it waits for a request. */
  function WorkLeft(s: State): nat {
    var m := s.docs.maxDocid;
    QueueCost(s.queue, m) +
    match s.worker
    case Idle => 0
    case Adding(_, _) => m + 5
    case Inserted(_, _) => m + 4
    case Scanning(_, _, next, upper) => 2 + if next <= upper then upper - next + 1 else 0
    case Built(_, _) => 1
    case Removing(_) => 2
    case Dropping(_) => 1
  }

  /** While work is left and the engine serves, the worker has a step, and each takes one off. */
  lemma WorkerStepsOn(ws: Widths, s: State)
    requires s.phase.Serving?
    ensures WorkLeft(s) > 0 ==> exists step :: IsWork(step) && Enabled(ws, s, step)
    ensures forall step :: IsWork(step) && Enabled(ws, s, step) ==> WorkLeft(Do(ws, s, step)) == WorkLeft(s) - 1
    ensures WorkLeft(s) == 0 <==> s.worker.Idle? && s.queue == []
  {
    if WorkLeft(s) > 0 {
      var step := SomeWork(ws, s);
      assert IsWork(step) && Enabled(ws, s, step);
    }
  }

  lemma SomeWork(ws: Widths, s: State) returns (step: Step)
    requires s.phase.Serving? && (!s.worker.Idle? || s.queue != [])
    ensures IsWork(step) && Enabled(ws, s, step)
  {
    step :=
      match s.worker
      case Idle => Take
      case Adding(_, _) => Insert
      case Inserted(_, _) => DropOld
      case Scanning(_, _, next, upper) => if next <= upper then Scan else Flip
      case Built(_, _) => Unmark
      case Removing(_) => RemoveUnmark
      case Dropping(_) => RemoveDrop;
  }

  /** The steps of a schedule that were enabled. */
  function StepsTaken(ws: Widths, s: State, steps: seq<Step>): nat
    decreases steps
  {
    if steps == [] then 0
    else (if Enabled(ws, s, steps[0]) then 1 else 0) + StepsTaken(ws, Next(ws, s, steps[0]), steps[1..])
  }

  /** So over every schedule of worker steps all tasks are done after exactly as many steps as were left. */
  lemma {:induction false} WorkerDrains(ws: Widths, s: State, steps: seq<Step>)
    requires s.phase.Serving? && forall i :: 0 <= i < |steps| ==> IsWork(steps[i])
    ensures var t := Run(ws, s, steps);
            && WorkLeft(t) + StepsTaken(ws, s, steps) == WorkLeft(s)
            && (StepsTaken(ws, s, steps) == WorkLeft(s) <==> t.worker.Idle? && t.queue == [])
    decreases steps
  {
    WorkerStepsOn(ws, s);
    if steps != [] { WorkerDrains(ws, Next(ws, s, steps[0]), steps[1..]); }
  }

  function Times(step: Step, k: nat): seq<Step> {
    seq(k, _ => step)
  }

  /** Everything but the index entries and the worker. */
  predicate SameControl(s: State, t: State) {
    && t.schema == s.schema && t.markers == s.markers && t.names == s.names && t.ready == s.ready && t.queue == s.queue
    && t.phase == s.phase && SameDocs(s.docs, t.docs) && t.docs.slots == s.docs.slots
  }

  /** The index holds no deleted document. */
  ghost predicate NoDeleted(s: State, slot: Slot) {
    forall e :: e in s.docs.entries && e.slot == slot ==> e.docid in s.docs.rows && e.docid !in s.docs.deleted
  }

  lemma {:induction false} ScansRun(ws: Widths, s: State, k: nat)
    requires s.worker.Scanning? && s.worker.next + k == s.worker.upper + 1
    ensures var t := Run(ws, s, Times(Scan, k)); SameControl(s, t) && t.worker == s.worker.(next := s.worker.next + k)
    ensures NoDeleted(s, s.worker.slot) ==> NoDeleted(Run(ws, s, Times(Scan, k)), s.worker.slot)
    decreases k
  {
    if k > 0 {
      assert Times(Scan, k) == [Scan] + Times(Scan, k - 1);
      RunCons(ws, s, Scan, Times(Scan, k - 1));
      ScansRun(ws, Do(ws, s, Scan), k - 1);
    }
  }

  /** The worker's steps for one ADD task, with a scan over docids 0 to upper. */
  function AddSteps(upper: nat): seq<Step> {
    [Take, Insert, DropOld] + Times(Scan, upper + 1) + [Flip, Unmark]
  }

  lemma AddBegins(ws: Widths, s: State, n: Name, slot: Slot)
    requires s.phase.Serving? && s.worker.Idle? && s.queue != [] && s.queue[0] == Add(n, slot)
    ensures var t := Run(ws, s, [Take, Insert, DropOld]);
            && t.worker == Scanning(n, slot, 0, s.docs.maxDocid) && t.phase.Serving?
            && t.schema == s.schema && t.markers == s.markers + {n} && t.names == s.names[n := slot]
            && t.ready == s.ready - {slot} && t.queue == s.queue[1..] && SameDocs(s.docs, t.docs) && NoDeleted(t, slot)
  {
    RunThree(ws, s, Take, Insert, DropOld);
  }

  lemma AddEnds(ws: Widths, s: State)
    requires s.worker.Scanning? && s.worker.next > s.worker.upper
    ensures Run(ws, s, [Flip, Unmark]) ==
            s.(ready := s.ready + {s.worker.slot}, markers := s.markers - {s.worker.name}, worker := Idle)
  {
    RunTwo(ws, s, Flip, Unmark);
  }

  /** An ADD task at the head of the queue is carried out: its index ends READY, without a marker. */
  lemma AddIsCarriedOut(ws: Widths, s: State, n: Name, slot: Slot)
    requires s.phase.Serving? && s.worker.Idle? && s.queue != [] && s.queue[0] == Add(n, slot)
    ensures var t := Run(ws, s, AddSteps(s.docs.maxDocid));
            && t.phase.Serving? && t.worker.Idle? && t.queue == s.queue[1..] && t.schema == s.schema
            && t.names == s.names[n := slot] && t.ready == s.ready + {slot} && t.markers == s.markers - {n}
            && SameDocs(s.docs, t.docs) && NoDeleted(t, slot)
  {
    var upper := s.docs.maxDocid;
    var start, scans, last := [Take, Insert, DropOld], Times(Scan, upper + 1), [Flip, Unmark];
    RunConcat(ws, s, start + scans, last);
    RunConcat(ws, s, start, scans);
    AddBegins(ws, s, n, slot);
    var a := Run(ws, s, start);
    ScansRun(ws, a, upper + 1);
    AddEnds(ws, Run(ws, a, scans));
    assert a.ready + {slot} == s.ready + {slot} && a.markers - {n} == s.markers - {n};
  }

  lemma AddStepsNoCrash(upper: nat)
    ensures NoCrash(AddSteps(upper))
  {
  }

  /**
   * A request for a new index reaches it: from any state between tasks the request and the worker's
   * steps end with the index published under its name, READY, exact, without deleted documents and
   * without a marker.
   */
  lemma RequestIsBuilt(ws: Widths, s: State, n: Name, slot: Slot)
    requires Inv(ws, s) && s.phase.Serving? && s.worker.Idle? && s.queue == []
    requires n != "" && n !in s.names && SlotOk(ws, slot)
    ensures var t := Run(ws, s, [RequestAdd(n, slot)] + AddSteps(s.docs.maxDocid));
            && Inv(ws, t) && t.phase.Serving? && t.worker.Idle? && t.queue == [] && SameDocs(s.docs, t.docs)
            && t.names == s.names[n := slot] && t.ready == s.ready + {slot} && Documents.ExactSlot(t.docs, slot)
            && t.markers == s.markers - {n} && t.schema == s.schema && NoDeleted(t, slot)
  {
    var steps := [RequestAdd(n, slot)] + AddSteps(s.docs.maxDocid);
    AddStepsNoCrash(s.docs.maxDocid);
    NoCrashKeepsInv(ws, s, steps);
    RunCons(ws, s, RequestAdd(n, slot), AddSteps(s.docs.maxDocid));
    var a := Do(ws, s, RequestAdd(n, slot));
    AddIsCarriedOut(ws, a, n, slot);
    assert a.markers - {n} == s.markers - {n};
  }

  /** A removal is carried out: the name is unknown, its index unpublished, and no entry or marker is left. */
  lemma RemovalIsCarriedOut(ws: Widths, s: State, n: Name)
    requires s.phase.Serving? && s.worker.Idle? && s.queue == [] && n != "" && n in s.names
    ensures var t := Run(ws, s, [RequestRemove(n), Take] + [RemoveUnmark, RemoveDrop]);
            && t.worker.Idle? && t.queue == [] && t.names == s.names - {n} && t.markers == s.markers - {n}
            && t.ready == s.ready - {s.names[n]} && t.docs.slots == s.docs.slots - {s.names[n]}
            && SameDocs(s.docs, t.docs)
            && (s.names[n] in s.docs.slots ==> forall e :: e in t.docs.entries <==>
                                                 e in s.docs.entries && e.slot != s.names[n])
  {
    var b := Next(ws, Next(ws, s, RequestRemove(n)), Take);
    RunConcat(ws, s, [RequestRemove(n), Take], [RemoveUnmark, RemoveDrop]);
    RunTwo(ws, s, RequestRemove(n), Take);
    RunTwo(ws, b, RemoveUnmark, RemoveDrop);
  }

  // Load after a crash.

  /** The markers Load has still to deal with. */
  function ToRebuild(phase: Phase): set<Name> {
    match phase
    case Serving => {}
    case Recovering(todo) => todo
    case Rebuilding(todo, name, _, _, _) => todo + {name}
  }

  /** What Load keeps from the crash on: the schema's names, the documents, and markers only where work is left. */
  predicate LoadKeeps(crashed: State, s: State) {
    && s.schema == crashed.schema && s.names == crashed.schema && SameDocs(crashed.docs, s.docs)
    && s.docs.slots == crashed.schema.Values && s.worker.Idle? && s.queue == []
    && s.markers == ToRebuild(s.phase)
    && (s.phase.Rebuilding? ==> s.phase.name !in s.phase.todo)
  }

  /** A bound on the steps Load has left. */
  function LoadLeft(s: State): nat {
    match s.phase
    case Serving => 0
    case Recovering(todo) => 1 + TodoCost(|todo|, s.docs.maxDocid)
    case Rebuilding(todo, _, _, next, upper) =>
      2 + TodoCost(|todo|, s.docs.maxDocid) + if next <= upper then upper - next + 1 else 0
  }

  function TodoCost(k: nat, m: nat): nat {
    if k == 0 then 0 else m + 3 + TodoCost(k - 1, m)
  }

  lemma LoadStepKeeps(ws: Widths, crashed: State, s: State, step: Step)
    requires LoadKeeps(crashed, s) && IsRecovery(step) && Enabled(ws, s, step)
    ensures LoadKeeps(crashed, Do(ws, s, step))
  {
  }

  lemma LoadStepLess(ws: Widths, s: State, step: Step)
    requires IsRecovery(step) && Enabled(ws, s, step)
    ensures LoadLeft(Do(ws, s, step)) < LoadLeft(s)
  {
    if step.RecoverNext? { assert |s.phase.todo - {step.name}| == |s.phase.todo| - 1; }
  }

  /** Load always has a step until it serves. */
  lemma LoadStepsOn(ws: Widths, s: State) returns (step: Step)
    requires !s.phase.Serving?
    ensures IsRecovery(step) && Enabled(ws, s, step)
  {
    if s.phase.Rebuilding? {
      step := if s.phase.next <= s.phase.upper then RecoverScan else RecoverFlip;
    } else if s.phase.todo == {} {
      step := RecoverDone;
    } else {
      var n :| n in s.phase.todo;
      step := RecoverNext(n);
    }
  }

  predicate Recoveries(steps: seq<Step>) {
    forall i :: 0 <= i < |steps| ==> IsRecovery(steps[i])
  }

  lemma {:induction false} LoadRun(ws: Widths, crashed: State, s: State, steps: seq<Step>)
    requires LoadKeeps(crashed, s) && Recoveries(steps)
    ensures var t := Run(ws, s, steps); LoadKeeps(crashed, t) && LoadLeft(t) + StepsTaken(ws, s, steps) <= LoadLeft(s)
    decreases steps
  {
    if steps != [] {
      if Enabled(ws, s, steps[0]) {
        LoadStepKeeps(ws, crashed, s, steps[0]);
        LoadStepLess(ws, s, steps[0]);
      }
      LoadRun(ws, crashed, Next(ws, s, steps[0]), steps[1..]);
    }
  }

  /** As before the crash and better: the schema's indexes, all READY and exact, and no marker. */
  ghost predicate Restored(crashed: State, t: State) {
    && t.phase.Serving? && t.worker.Idle? && t.queue == [] && t.markers == {}
    && t.names == t.schema == crashed.schema && t.ready == t.docs.slots == t.schema.Values
    && SameDocs(crashed.docs, t.docs) && Trusted(t.docs, t.ready)
  }

  lemma ServesRestored(ws: Widths, crashed: State, t: State)
    requires Inv(ws, t) && LoadKeeps(crashed, t) && t.phase.Serving?
    ensures Restored(crashed, t)
  {
  }

  /**
   * After a crash of a covered state, over every order of recovery steps: Load serves once enough of
   * its steps are taken, and when it serves everything is restored.
   */
  lemma CrashThenLoad(ws: Widths, s: State, steps: seq<Step>)
    requires Inv(ws, s) && Covered(s) && Recoveries(steps)
    ensures var t := Run(ws, Restarted(s), steps);
            && (StepsTaken(ws, Restarted(s), steps) >= LoadLeft(Restarted(s)) ==> t.phase.Serving?)
            && (t.phase.Serving? ==> Restored(s, t))
  {
    CrashKeepsInv(ws, s);
    NoCrashKeepsInv(ws, Restarted(s), steps);
    LoadRun(ws, s, Restarted(s), steps);
    var t := Run(ws, Restarted(s), steps);
    if t.phase.Serving? { ServesRestored(ws, s, t); }
  }

  // A crash in the middle of a build.

  lemma {:induction false} CleanConcat(ws: Widths, s: State, a: seq<Step>, b: seq<Step>)
    ensures CleanRun(ws, s, a + b) <==> CleanRun(ws, s, a) && CleanRun(ws, Run(ws, s, a), b)
    decreases a
  {
    if a == [] {
      assert a + b == b;
    } else {
      assert (a + b)[1..] == a[1..] + b;
      CleanConcat(ws, Next(ws, s, a[0]), a[1..], b);
    }
  }

  predicate Harmless(step: Step) {
    !step.RequestAdd? && !step.List? && !step.Take?
  }

  lemma {:induction false} HarmlessIsClean(ws: Widths, s: State, steps: seq<Step>)
    requires forall i :: 0 <= i < |steps| ==> Harmless(steps[i])
    ensures CleanRun(ws, s, steps)
    decreases steps
  {
    if steps != [] { HarmlessIsClean(ws, Next(ws, s, steps[0]), steps[1..]); }
  }

  /** The whole build of a requested index, listed by the master at once. */
  function ListedBuild(n: Name, slot: Slot, upper: nat): seq<Step> {
    [RequestAdd(n, slot), List(n, slot)] + AddSteps(upper)
  }

  /** The request's preconditions: a name and fields that are new to the engine and to the schema. */
  ghost predicate NewTo(ws: Widths, s: State, n: Name, slot: Slot) {
    && s.phase.Serving? && s.worker.Idle? && s.queue == [] && n != "" && SlotOk(ws, slot)
    && n !in s.names && slot !in s.names.Values && n !in s.schema && slot !in s.schema.Values
  }

  lemma ListedBuildIsClean(ws: Widths, s: State, n: Name, slot: Slot, upper: nat)
    requires NewTo(ws, s, n, slot)
    ensures CleanRun(ws, s, ListedBuild(n, slot, upper))
    ensures var t := Run(ws, s, [RequestAdd(n, slot), List(n, slot)]);
            t == s.(markers := s.markers + {n}, queue := [Add(n, slot)], schema := s.schema[n := slot])
  {
    var add, list, a := RequestAdd(n, slot), List(n, slot), Do(ws, s, RequestAdd(n, slot));
    assert forall m, x :: Bound(s, m, x) ==> m in s.names && s.names[m] in s.names.Values;
    assert Bound(a, n, slot);
    RunTwo(ws, s, add, list);
    assert CleanRun(ws, s, [add, list]) by { assert [add, list][1..] == [list] && [list][1..] == []; }
    var b := Run(ws, s, [add, list]);
    var rest := [Insert, DropOld] + Times(Scan, upper + 1) + [Flip, Unmark];
    HarmlessIsClean(ws, Next(ws, b, Take), rest);
    assert AddSteps(upper)[1..] == rest;
    assert CleanRun(ws, b, AddSteps(upper));
    CleanConcat(ws, s, [add, list], AddSteps(upper));
  }

  lemma {:induction false} SchemaKept(ws: Widths, s: State, steps: seq<Step>)
    requires forall i :: 0 <= i < |steps| ==> IsWork(steps[i])
    ensures Run(ws, s, steps).schema == s.schema && SameDocs(s.docs, Run(ws, s, steps).docs)
    decreases steps
  {
    if steps != [] { SchemaKept(ws, Next(ws, s, steps[0]), steps[1..]); }
  }

  lemma AddStepsAreWork(upper: nat)
    ensures forall i :: 0 <= i < |AddSteps(upper)| ==> IsWork(AddSteps(upper)[i])
  {
  }

  /**
   * A crash anywhere in the build of a requested and listed index: once Load serves, the index is
   * READY under its name and exact, with every other index of the schema.
   */
  lemma CrashedBuildIsRepaired(ws: Widths, s: State, n: Name, slot: Slot, k: nat, steps: seq<Step>)
    requires Inv(ws, s) && Disciplined(s) && NewTo(ws, s, n, slot) && Recoveries(steps)
    requires k <= |AddSteps(s.docs.maxDocid)|
    ensures var crashed := Run(ws, s, ListedBuild(n, slot, s.docs.maxDocid)[..k + 2]);
            var t := Run(ws, Restarted(crashed), steps);
            && (StepsTaken(ws, Restarted(crashed), steps) >= LoadLeft(Restarted(crashed)) ==> t.phase.Serving?)
            && (t.phase.Serving? ==>
                  && t.names == s.schema[n := slot] && slot in t.ready && Documents.ExactSlot(t.docs, slot)
                  && Restored(crashed, t) && SameDocs(s.docs, t.docs))
  {
    var upper := s.docs.maxDocid;
    var all, front, rest := ListedBuild(n, slot, upper), [RequestAdd(n, slot), List(n, slot)], AddSteps(upper)[..k];
    ListedBuildIsClean(ws, s, n, slot, upper);
    assert all == all[..k + 2] + all[k + 2..] && all[..k + 2] == front + rest;
    CleanConcat(ws, s, all[..k + 2], all[k + 2..]);
    CleanRunStaysCovered(ws, s, all[..k + 2]);
    var crashed := Run(ws, s, all[..k + 2]);
    RunConcat(ws, s, front, rest);
    AddStepsAreWork(upper);
    SchemaKept(ws, Run(ws, s, front), rest);
    CrashThenLoad(ws, crashed, steps);
    assert n in crashed.schema && crashed.schema[n] == slot;
  }

  /** A removal that is unlisted before the worker takes it, step by step. */
  function UnlistedRemoval(n: Name): seq<Step> {
    [RequestRemove(n), Unlist(n), Take] + [RemoveUnmark, RemoveDrop]
  }

  lemma UnlistedRemovalIsClean(ws: Widths, s: State, n: Name)
    requires s.phase.Serving? && s.worker.Idle? && s.queue == [] && n != ""
    ensures CleanRun(ws, s, UnlistedRemoval(n)) && Run(ws, s, UnlistedRemoval(n)).schema == s.schema - {n}
  {
    var start, last := [RequestRemove(n), Unlist(n), Take], [RemoveUnmark, RemoveDrop];
    RunThree(ws, s, RequestRemove(n), Unlist(n), Take);
    assert CleanRun(ws, s, start) by {
      assert start[1..] == [Unlist(n), Take] && [Unlist(n), Take][1..] == [Take] && [Take][1..] == [];
    }
    var a := Run(ws, s, start);
    HarmlessIsClean(ws, a, last);
    CleanConcat(ws, s, start, last);
    RunConcat(ws, s, start, last);
    SchemaKept(ws, a, last);
  }

  /** After such a removal, a crash and Load the index is still gone. */
  lemma RemovedStaysRemoved(ws: Widths, s: State, n: Name, steps: seq<Step>)
    requires Inv(ws, s) && Disciplined(s) && s.phase.Serving? && s.worker.Idle? && s.queue == [] && n != ""
    requires Recoveries(steps)
    ensures var crashed := Run(ws, s, UnlistedRemoval(n));
            var t := Run(ws, Restarted(crashed), steps);
            t.phase.Serving? ==> t.names == s.schema - {n} && Restored(crashed, t)
  {
    UnlistedRemovalIsClean(ws, s, n);
    CleanRunStaysCovered(ws, s, UnlistedRemoval(n));
    CrashThenLoad(ws, Run(ws, s, UnlistedRemoval(n)), steps);
  }
}
