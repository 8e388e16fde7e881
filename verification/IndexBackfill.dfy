/**
 * BackfillScalarIndex with no lock at all, interleaved with adds and deletes: the index
 * is published empty, the snapshot of max_docid_ is read after that, and each docid up to
 * and including the snapshot is tested, read, put and tested again.
 */
module IndexBackfill {
  import opened ScalarQuery

  datatype Applier =
    | Idle
    | RowAdded
    | RowIndexed
    | Marked(docid: nat)
    | Removed(docid: nat)

  datatype Builder =
    | Unpublished
    | Published
    | Testing(next: nat, upper: nat)
    | Reading(next: nat, upper: nat)
    | Putting(next: nat, upper: nat, value: int)
    | Retesting(next: nat, upper: nat)
    | Undoing(next: nat, upper: nat)
    | Ready

  /** since is history: the applier indexed every docid from it on. */
  datatype State = State(
    rows: map<nat, int>,
    maxDocid: nat,
    deleted: set<nat>,
    index: Postings,
    applier: Applier,
    builder: Builder,
    since: nat)

  datatype Step =
    | AddRow(value: int) | AddIndex | AddBump
    | DeleteMark(docid: nat) | DeleteUnindex | DeleteKey(leftover: int)
    | Publish | Snapshot | Test | Read | Put | Retest | Undo

  predicate LiveDoc(s: State, d: nat) {
    d < s.maxDocid && d in s.rows && d !in s.deleted
  }

  predicate Enabled(s: State, step: Step) {
    match step
    case AddRow(_) => s.applier.Idle?
    case AddIndex => s.applier.RowAdded? && s.maxDocid in s.rows
    case AddBump => s.applier.RowIndexed?
    case DeleteMark(d) => s.applier.Idle? && LiveDoc(s, d)
    case DeleteUnindex => s.applier.Marked? && s.applier.docid in s.rows
    case DeleteKey(_) => s.applier.Removed?
    case Publish => s.builder.Unpublished?
    case Snapshot => s.builder.Published?
    case Test => s.builder.Testing?
    case Read => s.builder.Reading?
    case Put => s.builder.Putting?
    case Retest => s.builder.Retesting?
    case Undo => s.builder.Undoing?
  }

  function Do(s: State, step: Step): State
    requires Enabled(s, step)
  {
    match step
    case AddRow(v) => s.(rows := s.rows[s.maxDocid := v], applier := RowAdded)
    case AddIndex =>
      s.(index := if s.builder.Unpublished? then s.index else s.index + {(s.rows[s.maxDocid], s.maxDocid)},
         applier := RowIndexed)
    case AddBump => s.(maxDocid := s.maxDocid + 1, applier := Idle)
    case DeleteMark(d) => s.(deleted := s.deleted + {d}, applier := Marked(d))
    case DeleteUnindex =>
      var d := s.applier.docid;
      s.(index := if s.builder.Unpublished? then s.index else s.index - {(s.rows[d], d)}, applier := Removed(d))
    case DeleteKey(w) => s.(rows := s.rows[s.applier.docid := w], applier := Idle)
    case Publish =>
      s.(index := {}, builder := Published, since := if s.applier.RowIndexed? then s.maxDocid + 1 else s.maxDocid)
    case Snapshot => s.(builder := Testing(0, s.maxDocid))
    case Test =>
      var n, u := s.builder.next, s.builder.upper;
      if n > u then s.(builder := Ready)
      else if n in s.deleted then s.(builder := Testing(n + 1, u))
      else s.(builder := Reading(n, u))
    case Read =>
      var n, u := s.builder.next, s.builder.upper;
      if n in s.rows then s.(builder := Putting(n, u, s.rows[n])) else s.(builder := Testing(n + 1, u))
    case Put =>
      s.(index := s.index + {(s.builder.value, s.builder.next)}, builder := Retesting(s.builder.next, s.builder.upper))
    case Retest =>
      var n, u := s.builder.next, s.builder.upper;
      if n in s.deleted then s.(builder := Undoing(n, u)) else s.(builder := Testing(n + 1, u))
    case Undo =>
      var n := s.builder.next;
      s.(index := if n in s.rows then s.index - {(s.rows[n], n)} else s.index,
         builder := Testing(n + 1, s.builder.upper))
  }

  predicate Init(s: State) {
    s.rows == map[] && s.maxDocid == 0 && s.deleted == {} && s.applier.Idle? && s.builder.Unpublished?
  }

  predicate Filling(s: State) {
    !s.builder.Unpublished? && !s.builder.Published? && !s.builder.Ready?
  }

  /** Docids below this have been scanned; a docid past its put counts as scanned. */
  function Frontier(s: State): nat {
    if s.builder.Ready? then s.maxDocid + 1
    else if s.builder.Retesting? || s.builder.Undoing? then s.builder.next + 1
    else if Filling(s) then s.builder.next
    else 0
  }

  predicate Must(s: State, d: nat) {
    && d in s.rows && d !in s.deleted && (d < s.maxDocid || (d == s.maxDocid && s.applier.RowIndexed?))
    && (d < Frontier(s) || d >= s.since)
  }

  ghost predicate Inv(s: State) {
    && (forall d: nat :: d in s.rows <==>
         d < s.maxDocid || (d == s.maxDocid && (s.applier.RowAdded? || s.applier.RowIndexed?)))
    && (s.applier.Marked? || s.applier.Removed? ==> s.applier.docid in s.deleted)
    && (forall d :: d in s.deleted ==> d < s.maxDocid)
    && (!s.builder.Unpublished? ==>
          && s.since <= s.maxDocid + 1
          && (s.since == s.maxDocid + 1 ==> s.applier.RowIndexed?)
          && (forall p :: p in s.index ==> p.1 in s.rows && (p.1 in s.deleted || p.0 == s.rows[p.1]))
          && (forall d :: Must(s, d) ==> (s.rows[d], d) in s.index))
    && (Filling(s) ==>
         s.since <= s.builder.upper + 1 && s.builder.upper <= s.maxDocid && s.builder.next <= s.builder.upper + 1)
    && (s.builder.Putting? ==>
         s.builder.next in s.rows && (s.builder.next in s.deleted || s.builder.value == s.rows[s.builder.next]))
    && (Filling(s) && !s.builder.Testing? ==> s.builder.next <= s.builder.upper)
    && (s.builder.Undoing? ==> s.builder.next in s.deleted)
  }

  lemma ApplierKeepsInv(s: State, step: Step)
    requires Inv(s) && Enabled(s, step)
    requires step.AddRow? || step.AddIndex? || step.AddBump? || step.DeleteMark? || step.DeleteUnindex?
               || step.DeleteKey?
    ensures Inv(Do(s, step))
  {
    var t := Do(s, step);
    if !t.builder.Unpublished? {
      forall d | Must(t, d) ensures (t.rows[d], d) in t.index {
        if !(step.AddIndex? && d == s.maxDocid) { assert Must(s, d); }
      }
    }
  }

  lemma BuilderKeepsInv(s: State, step: Step)
    requires Inv(s) && Enabled(s, step)
    requires !(step.AddRow? || step.AddIndex? || step.AddBump? || step.DeleteMark? || step.DeleteUnindex?
               || step.DeleteKey?)
    ensures Inv(Do(s, step))
  {
    var t := Do(s, step);
    forall d | Must(t, d) ensures (t.rows[d], d) in t.index {
      if !step.Publish? && !(step.Put? && d == s.builder.next) { assert Must(s, d); }
    }
  }

  lemma StepKeepsInv(s: State, step: Step)
    requires Inv(s) && Enabled(s, step)
    ensures Inv(Do(s, step))
  {
    if step.AddRow? || step.AddIndex? || step.AddBump? || step.DeleteMark? || step.DeleteUnindex? || step.DeleteKey? {
      ApplierKeepsInv(s, step);
    } else {
      BuilderKeepsInv(s, step);
    }
  }

  function Run(s: State, steps: seq<Step>): State
    decreases steps
  {
    if steps == [] then s else Run(if Enabled(s, steps[0]) then Do(s, steps[0]) else s, steps[1..])
  }

  lemma {:induction false} RunKeepsInv(s: State, steps: seq<Step>)
    requires Inv(s)
    ensures Inv(Run(s, steps))
    decreases steps
  {
    if steps != [] {
      var step := steps[0];
      if Enabled(s, step) { StepKeepsInv(s, step); }
      RunKeepsInv(if Enabled(s, step) then Do(s, step) else s, steps[1..]);
    }
  }

  /**
   * Over every interleaving with adds and deletes: from READY on, each live document is
   * indexed under its value and nothing else, and every other posting is a deleted document's,
   * which the delete bitmap filters out, or that of the document being added. Between writes the
   * index is exact.
   */
  lemma BackfillIsExact(s: State, steps: seq<Step>)
    requires Init(s)
    ensures var t := Run(s, steps);
            t.builder.Ready? ==>
              && (forall v, d :: LiveDoc(t, d) ==> ((v, d) in t.index <==> t.rows[d] == v))
              && (forall p :: p in t.index && !LiveDoc(t, p.1) ==>
                    p.1 in t.deleted || (p.1 == t.maxDocid && p.1 in t.rows && p.0 == t.rows[p.1]))
              && (t.applier.Idle? ==> ExactOnLive(t.index, t.rows, t.deleted))
  {
    RunKeepsInv(s, steps);
    var t := Run(s, steps);
    if t.builder.Ready? {
      forall d | LiveDoc(t, d) ensures (t.rows[d], d) in t.index { assert Must(t, d); }
    }
  }

  // Every write and every build comes to its end.

  function Next(s: State, step: Step): State {
    if Enabled(s, step) then Do(s, step) else s
  }

  lemma RunThree(s: State, a: Step, b: Step, c: Step)
    ensures Run(s, [a, b, c]) == Next(Next(Next(s, a), b), c)
  {
    assert [a, b, c][1..] == [b, c] && [b, c][1..] == [c] && [c][1..] == [];
    var t := Next(Next(s, a), b);
    assert Run(s, [a, b, c]) == Run(Next(s, a), [b, c]) && Run(Next(s, a), [b, c]) == Run(t, [c]);
    assert Run(t, [c]) == Run(Next(t, c), []) && Run(Next(t, c), []) == Next(t, c);
  }

  /** An add ends with the row stored, the document live and, once the index is published, its value in the index. */
  lemma AddGoesThrough(s: State, v: int)
    requires s.applier.Idle? && s.maxDocid !in s.deleted
    ensures var t, d := Run(s, [AddRow(v), AddIndex, AddBump]), s.maxDocid;
            && t.applier.Idle? && t.maxDocid == d + 1 && t.rows == s.rows[d := v] && t.deleted == s.deleted
            && t.builder == s.builder && LiveDoc(t, d)
            && t.index == if s.builder.Unpublished? then s.index else s.index + {(v, d)}
  {
    RunThree(s, AddRow(v), AddIndex, AddBump);
  }

  /** A delete ends with the document deleted and, once the index is published, without its value in the index. */
  lemma DeleteGoesThrough(s: State, d: nat, w: int)
    requires s.applier.Idle? && LiveDoc(s, d)
    ensures var t := Run(s, [DeleteMark(d), DeleteUnindex, DeleteKey(w)]);
            && t.applier.Idle? && t.maxDocid == s.maxDocid && t.deleted == s.deleted + {d} && !LiveDoc(t, d)
            && t.rows == s.rows[d := w] && t.builder == s.builder
            && t.index == if s.builder.Unpublished? then s.index else s.index - {(s.rows[d], d)}
  {
    RunThree(s, DeleteMark(d), DeleteUnindex, DeleteKey(w));
  }

  predicate IsBuild(step: Step) {
    || step.Publish? || step.Snapshot? || step.Test? || step.Read? || step.Put? || step.Retest? || step.Undo?
  }

  /** A bound on the builder's steps once its last docid is fixed. */
  function BuildLeft(builder: Builder): nat {
    match builder
    case Testing(next, upper) => 1 + if next <= upper then 5 * (upper + 1 - next) else 0
    case Reading(next, upper) => if next <= upper then 5 * (upper + 1 - next) else 5
    case Putting(next, upper, _) => if next <= upper then 5 * (upper + 1 - next) - 1 else 4
    case Retesting(next, upper) => if next <= upper then 5 * (upper + 1 - next) - 2 else 3
    case Undoing(next, upper) => if next <= upper then 5 * (upper + 1 - next) - 3 else 2
    case _ => 0
  }

  /** The builder has a step until the index is READY, and each one brings that nearer. */
  lemma BuilderStepsOn(s: State) returns (step: Step)
    requires !s.builder.Ready?
    ensures IsBuild(step) && Enabled(s, step)
  {
    match s.builder
    case Unpublished => step := Publish;
    case Published => step := Snapshot;
    case Testing(_, _) => step := Test;
    case Reading(_, _) => step := Read;
    case Putting(_, _, _) => step := Put;
    case Retesting(_, _) => step := Retest;
    case Undoing(_, _) => step := Undo;
  }

  lemma BuildStep(s: State, step: Step)
    requires !s.builder.Unpublished? && !s.builder.Published? && Enabled(s, step)
    ensures !Do(s, step).builder.Unpublished? && !Do(s, step).builder.Published?
    ensures if IsBuild(step) then BuildLeft(Do(s, step).builder) < BuildLeft(s.builder)
            else Do(s, step).builder == s.builder
  {
  }

  /** How many steps the builder took in a schedule. */
  function BuildSteps(s: State, steps: seq<Step>): nat
    decreases steps
  {
    if steps == [] then 0
    else (if IsBuild(steps[0]) && Enabled(s, steps[0]) then 1 else 0) + BuildSteps(Next(s, steps[0]), steps[1..])
  }

  /** Over every interleaving with writes: the build is finished once the builder has taken the steps that were left. */
  lemma {:induction false} BuildFinishes(s: State, steps: seq<Step>)
    requires !s.builder.Unpublished? && !s.builder.Published? && BuildSteps(s, steps) >= BuildLeft(s.builder)
    ensures Run(s, steps).builder.Ready?
    decreases steps
  {
    if steps != [] {
      if Enabled(s, steps[0]) { BuildStep(s, steps[0]); }
      BuildFinishes(Next(s, steps[0]), steps[1..]);
    }
  }

  /** From the start: publishing and fixing the last docid leave this many steps. */
  lemma BuildBegins(s: State)
    requires s.builder.Unpublished?
    ensures var t := Run(s, [Publish, Snapshot]);
            t.builder == Testing(0, s.maxDocid) && t.index == {} && t.rows == s.rows && t.applier == s.applier
                && BuildLeft(t.builder) == 5 * (s.maxDocid + 1) + 1
  {
    assert [Publish, Snapshot][1..] == [Snapshot] && [Snapshot][1..] == [];
  }

  // Deleted documents do not linger.

  /** A delete that leaves the document's row as it is, as it does for numeric fields. */
  predicate LeavesRow(s: State, step: Step) {
    step.DeleteKey? && s.applier.Removed? && s.applier.docid in s.rows ==> step.leftover == s.rows[s.applier.docid]
  }

  ghost predicate LeavesRows(s: State, steps: seq<Step>)
    decreases steps
  {
    steps != [] ==> LeavesRow(s, steps[0]) && LeavesRows(Next(s, steps[0]), steps[1..])
  }

  /** Postings have their row's value, and a deleted document's is about to be removed by the delete or the builder. */
  ghost predicate Tidy(s: State) {
    && (s.builder.Putting? ==> s.builder.next in s.rows && s.builder.value == s.rows[s.builder.next])
    && (s.applier.Marked? || s.applier.Removed? ==> s.applier.docid in s.rows)
    && (!s.builder.Unpublished? ==> forall p :: p in s.index ==>
          && p.1 in s.rows && p.0 == s.rows[p.1]
          && (p.1 in s.deleted ==>
                s.applier == Marked(p.1) || ((s.builder.Retesting? || s.builder.Undoing?) && s.builder.next == p.1)))
  }

  lemma StepKeepsTidy(s: State, step: Step)
    requires Inv(s) && Tidy(s) && Enabled(s, step) && LeavesRow(s, step)
    ensures Tidy(Do(s, step))
  {
  }

  lemma {:induction false} RunKeepsTidy(s: State, steps: seq<Step>)
    requires Inv(s) && Tidy(s) && LeavesRows(s, steps)
    ensures Inv(Run(s, steps)) && Tidy(Run(s, steps))
    decreases steps
  {
    if steps != [] {
      if Enabled(s, steps[0]) {
        StepKeepsInv(s, steps[0]);
        StepKeepsTidy(s, steps[0]);
      }
      RunKeepsTidy(Next(s, steps[0]), steps[1..]);
    }
  }

  /**
   * Over every interleaving in which deletes leave the rows: from READY on and between writes the
   * index holds the live documents' values and nothing else. The second test and the undo see to it.
   */
  lemma NothingDeletedLingers(s: State, steps: seq<Step>)
    requires Init(s) && LeavesRows(s, steps)
    ensures var t := Run(s, steps);
            t.builder.Ready? && t.applier.Idle? ==>
              forall v, d :: (v, d) in t.index <==> LiveDoc(t, d) && t.rows[d] == v
  {
    RunKeepsTidy(s, steps);
    BackfillIsExact(s, steps);
    var t := Run(s, steps);
    if t.builder.Ready? && t.applier.Idle? {
      forall v, d | (v, d) in t.index ensures LiveDoc(t, d) && t.rows[d] == v { assert (v, d).1 in t.rows; }
    }
  }
}
