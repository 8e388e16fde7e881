/**
 * BuildFieldIndexUnderLock against the raft applier, step by step. The applier takes
 * build_write_mutex_ only inside each AddDoc and DeleteDoc call, not around a whole
 * write, so a build can run between the calls of one write. One index, its value per
 * document; the postings are (value, docid) pairs.
 */
module IndexBuild {
  import opened ScalarQuery

  /** Where the applier stands inside the write it is applying. */
  datatype Applier =
    | Idle
    | RowAdded                          // Table::Add done
    | RowIndexed                        // AddDoc done, max_docid_ not yet bumped
    | Unindexed(docid: nat, value: int) // Update: DeleteDoc done, the row still holds the old value
    | Rewritten(docid: nat)             // Update: row written, AddDoc not yet
    | Marked(docid: nat)                // Delete: bit set, DeleteDoc not yet
    | Removed(docid: nat)               // Delete: DeleteDoc done, Table::Delete not yet

  /** Where the maintenance worker stands. The lock is held in the three scanning states. */
  datatype Builder =
    | Unpublished
    | Published
    | Testing(next: nat, upper: nat)
    | Reading(next: nat, upper: nat)
    | Putting(next: nat, upper: nat, value: int)
    | Ready

  /**
   * caught and window are history: the old values the scan read inside an update's window, until the
   * document is deleted or set back to that value, and whether the lock was taken inside such a window,
   * between an update's DeleteDoc and its row write.
   */
  datatype State = State(
    rows: map<nat, int>,
    maxDocid: nat,
    deleted: set<nat>,
    index: Postings,
    applier: Applier,
    builder: Builder,
    caught: Postings,
    window: bool)

  datatype Step =
    | AddRow(value: int) | AddIndex | AddBump
    | UpdateUnindex(docid: nat, value: int) | UpdateWrite | UpdateIndex
    | DeleteMark(docid: nat) | DeleteUnindex | DeleteKey(leftover: int)
    | Publish | Lock | Test | Read | Put

  predicate Scanning(s: State) {
    s.builder.Testing? || s.builder.Reading? || s.builder.Putting?
  }

  predicate LiveDoc(s: State, d: nat) {
    d < s.maxDocid && d in s.rows && d !in s.deleted
  }

  predicate Enabled(s: State, step: Step) {
    match step
    case AddRow(_) => s.applier.Idle?
    case AddIndex => s.applier.RowAdded? && s.maxDocid in s.rows && !Scanning(s)
    case AddBump => s.applier.RowIndexed?
    case UpdateUnindex(d, v) => s.applier.Idle? && LiveDoc(s, d) && v != s.rows[d] && !Scanning(s)
    case UpdateWrite => s.applier.Unindexed?
    case UpdateIndex => s.applier.Rewritten? && s.applier.docid in s.rows && !Scanning(s)
    case DeleteMark(d) => s.applier.Idle? && LiveDoc(s, d)
    case DeleteUnindex => s.applier.Marked? && s.applier.docid in s.rows && !Scanning(s)
    case DeleteKey(_) => s.applier.Removed?
    case Publish => s.builder.Unpublished?
    case Lock => s.builder.Published?
    case Test => s.builder.Testing?
    case Read => s.builder.Reading?
    case Put => s.builder.Putting?
  }

  /** The applier maintains an index from its publication on. */
  function Written(s: State, p: (int, nat)): Postings {
    if s.builder.Unpublished? then s.index else s.index + {p}
  }

  function Erased(s: State, p: (int, nat)): Postings {
    if s.builder.Unpublished? then s.index else s.index - {p}
  }

  /** The value a document has once the write in flight is done. */
  function Final(s: State, d: nat): int
    requires d in s.rows
  {
    if s.applier.Unindexed? && s.applier.docid == d then s.applier.value else s.rows[d]
  }

  function Do(s: State, step: Step): State
    requires Enabled(s, step)
  {
    match step
    case AddRow(v) => s.(rows := s.rows[s.maxDocid := v], applier := RowAdded)
    case AddIndex => s.(index := Written(s, (s.rows[s.maxDocid], s.maxDocid)), applier := RowIndexed)
    case AddBump => s.(maxDocid := s.maxDocid + 1, applier := Idle)
    case UpdateUnindex(d, v) =>
      s.(index := Erased(s, (s.rows[d], d)), caught := s.caught - {(v, d)}, applier := Unindexed(d, v))
    case UpdateWrite => s.(rows := s.rows[s.applier.docid := s.applier.value], applier := Rewritten(s.applier.docid))
    case UpdateIndex => s.(index := Written(s, (s.rows[s.applier.docid], s.applier.docid)), applier := Idle)
    case DeleteMark(d) =>
      s.(deleted := s.deleted + {d}, caught := (set p | p in s.caught && p.1 != d), applier := Marked(d))
    case DeleteUnindex =>
      s.(index := Erased(s, (s.rows[s.applier.docid], s.applier.docid)), applier := Removed(s.applier.docid))
    case DeleteKey(w) => s.(rows := s.rows[s.applier.docid := w], applier := Idle)
    case Publish => s.(builder := Published)
    case Lock => s.(index := {}, builder := Testing(0, s.maxDocid), window := s.applier.Unindexed?)
    case Test =>
      var n, u := s.builder.next, s.builder.upper;
      if n > u then s.(builder := Ready)
      else if n in s.deleted then s.(builder := Testing(n + 1, u))
      else s.(builder := Reading(n, u))
    case Read =>
      var n, u := s.builder.next, s.builder.upper;
      if n in s.rows then
        s.(builder := Putting(n, u, s.rows[n]),
           caught := if s.applier.Unindexed? && s.applier.docid == n then s.caught + {(s.rows[n], n)} else s.caught)
      else s.(builder := Testing(n + 1, u))
    case Put =>
      s.(index := s.index + {(s.builder.value, s.builder.next)},
         builder := Testing(s.builder.next + 1, s.builder.upper))
  }

  /** An empty engine; keys may be left over from an earlier index of the same fields. */
  predicate Init(s: State) {
    s.rows == map[] && s.maxDocid == 0 && s.deleted == {} && s.applier.Idle? && s.builder.Unpublished?
    && s.caught == {} && !s.window
  }

  predicate InUpdate(s: State, d: nat) {
    (s.applier.Unindexed? || s.applier.Rewritten?) && s.applier.docid == d
  }

  /** How far the build has come: docids below this have been scanned. */
  function Frontier(s: State): nat {
    if s.builder.Ready? then s.maxDocid + 1 else if Scanning(s) then s.builder.next else 0
  }

  /** The document is indexed by now, unless a write of it is in flight. */
  predicate Must(s: State, d: nat) {
    && d in s.rows && d !in s.deleted && d < Frontier(s) && !InUpdate(s, d)
    && (d < s.maxDocid || (d == s.maxDocid && s.applier.RowIndexed?))
  }

  ghost predicate Shape(s: State) {
    && (forall d: nat :: d in s.rows <==>
         d < s.maxDocid || (d == s.maxDocid && (s.applier.RowAdded? || s.applier.RowIndexed?)))
    && (forall d :: d in s.deleted ==> d < s.maxDocid)
    && (s.applier.Unindexed? ==> LiveDoc(s, s.applier.docid) && s.applier.value != s.rows[s.applier.docid])
    && (s.applier.Rewritten? ==> LiveDoc(s, s.applier.docid))
    && (s.applier.Marked? || s.applier.Removed? ==> s.applier.docid in s.deleted)
    && (Scanning(s) ==> s.builder.upper <= s.maxDocid <= s.builder.upper + 1 && s.builder.next <= s.builder.upper + 1)
    && (Scanning(s) && s.maxDocid == s.builder.upper + 1 ==> !s.applier.RowIndexed?)
    && (s.builder.Reading? || s.builder.Putting? ==> s.builder.next <= s.builder.upper)
    && (s.builder.Reading? || s.builder.Putting? ==> s.applier != Removed(s.builder.next))
    && (s.builder.Putting? ==> s.builder.next in s.rows)
    && (s.builder.Putting? && s.builder.value != s.rows[s.builder.next] ==>
         s.window && s.applier == Rewritten(s.builder.next))
    && (Scanning(s) && s.applier.Unindexed? ==> s.window)
  }

  /** From the lock on, the index holds what it must, and nothing it must not except what was caught. */
  ghost predicate Content(s: State) {
    && (forall p :: p in s.index && p.1 !in s.deleted ==> p in s.caught || (p.1 in s.rows && p.0 == Final(s, p.1)))
    && (forall d :: Must(s, d) ==> (s.rows[d], d) in s.index)
  }

  /** What was caught is a wrong value of a document that is not deleted, in the index or about to be. */
  ghost predicate CaughtOk(s: State) {
    forall p :: p in s.caught ==>
      && p.1 !in s.deleted && p.1 in s.rows && p.0 != Final(s, p.1)
      && (p in s.index || (s.builder.Putting? && p == (s.builder.value, s.builder.next)))
  }

  ghost predicate Inv(s: State) {
    && Shape(s) && CaughtOk(s)
    && (Scanning(s) || s.builder.Ready? ==> Content(s))
    && (s.builder.Putting? && s.builder.next !in s.deleted && s.builder.value != Final(s, s.builder.next) ==>
          (s.builder.value, s.builder.next) in s.caught)
    && (!s.window ==> s.caught == {})
    && (s.builder.Unpublished? || s.builder.Published? ==> s.caught == {} && !s.window)
  }

  lemma InitInv(s: State)
    requires Init(s)
    ensures Inv(s)
  {
  }

  lemma AddKeepsInv(s: State, step: Step)
    requires Inv(s) && Enabled(s, step) && (step.AddRow? || step.AddIndex? || step.AddBump?)
    ensures Inv(Do(s, step))
  {
  }

  lemma UpdateKeepsInv(s: State, step: Step)
    requires Inv(s) && Enabled(s, step) && (step.UpdateUnindex? || step.UpdateWrite? || step.UpdateIndex?)
    ensures Inv(Do(s, step))
  {
  }

  lemma DeleteKeepsInv(s: State, step: Step)
    requires Inv(s) && Enabled(s, step) && (step.DeleteMark? || step.DeleteUnindex? || step.DeleteKey?)
    ensures Inv(Do(s, step))
  {
  }

  lemma PutKeepsInv(s: State)
    requires Inv(s) && s.builder.Putting?
    ensures Inv(Do(s, Put))
  {
    var n, v, t := s.builder.next, s.builder.value, Do(s, Put);
    forall d | Must(t, d) ensures (t.rows[d], d) in t.index {
      if d == n { assert v == s.rows[n]; } else { assert Must(s, d); }
    }
  }

  lemma TestKeepsInv(s: State)
    requires Inv(s) && s.builder.Testing?
    ensures Inv(Do(s, Test))
  {
    var t := Do(s, Test);
    forall d | Must(t, d) ensures (t.rows[d], d) in t.index { assert Must(s, d); }
  }

  lemma LockOrReadKeepsInv(s: State, step: Step)
    requires Inv(s) && Enabled(s, step) && (step.Publish? || step.Lock? || step.Read?)
    ensures Inv(Do(s, step))
  {
  }

  lemma StepKeepsInv(s: State, step: Step)
    requires Inv(s) && Enabled(s, step)
    ensures Inv(Do(s, step))
  {
    match step
    case AddRow(_) => AddKeepsInv(s, step);
    case AddIndex => AddKeepsInv(s, step);
    case AddBump => AddKeepsInv(s, step);
    case UpdateUnindex(_, _) => UpdateKeepsInv(s, step);
    case UpdateWrite => UpdateKeepsInv(s, step);
    case UpdateIndex => UpdateKeepsInv(s, step);
    case DeleteMark(_) => DeleteKeepsInv(s, step);
    case DeleteUnindex => DeleteKeepsInv(s, step);
    case DeleteKey(_) => DeleteKeepsInv(s, step);
    case Put => PutKeepsInv(s);
    case Test => TestKeepsInv(s);
    case _ => LockOrReadKeepsInv(s, step);
  }

  /** The state a schedule leads to; a step that is not enabled waits and changes nothing. */
  function Run(s: State, steps: seq<Step>): State
    decreases steps
  {
    if steps == [] then s else Run(if Enabled(s, steps[0]) then Do(s, steps[0]) else s, steps[1..])
  }

  lemma {:induction false} RunKeepsInv(s: State, steps: seq<Step>)
    requires Inv(s)
    ensures Inv(Run(s, steps))
    decreases steps
  {
    if steps != [] {
      if Enabled(s, steps[0]) { StepKeepsInv(s, steps[0]); }
      RunKeepsInv(if Enabled(s, steps[0]) then Do(s, steps[0]) else s, steps[1..]);
    }
  }

  lemma {:induction false} RunConcat(s: State, a: seq<Step>, b: seq<Step>)
    ensures Run(s, a + b) == Run(Run(s, a), b)
    decreases a
  {
    if a == [] {
      assert a + b == b;
    } else {
      assert (a + b)[1..] == a[1..] + b;
      RunConcat(if Enabled(s, a[0]) then Do(s, a[0]) else s, a[1..], b);
    }
  }

  /** This step is the scan reading a document whose update has unindexed it and not yet written its row. */
  predicate Catches(s: State, step: Step, p: (int, nat)) {
    && step.Read? && s.builder.Reading? && s.builder.next == p.1 && s.applier.Unindexed? && s.applier.docid == p.1
    && p.1 in s.rows && s.rows[p.1] == p.0
  }

  /** This step deletes the document or sets it back to the value. */
  predicate Clears(s: State, step: Step, p: (int, nat)) {
    Enabled(s, step) && (step == DeleteMark(p.1) || step == UpdateUnindex(p.1, p.0))
  }

  lemma CaughtStep(s: State, step: Step, p: (int, nat))
    requires Inv(s) && Enabled(s, step)
    ensures p in Do(s, step).caught <==> Catches(s, step, p) || (p in s.caught && !Clears(s, step, p))
  {
  }

  /** Step i of the schedule caught this value, and no later step cleared it. */
  ghost predicate LeftBehind(s: State, steps: seq<Step>, p: (int, nat), i: nat) {
    && i < |steps| && Catches(Run(s, steps[..i]), steps[i], p)
    && forall j :: i < j < |steps| ==> !Clears(Run(s, steps[..j]), steps[j], p)
  }

  lemma LeftBehindSnoc(s: State, steps: seq<Step>, p: (int, nat), i: nat)
    requires |steps| > 0
    ensures var n := |steps| - 1;
            LeftBehind(s, steps, p, i) <==>
              if i == n then Catches(Run(s, steps[..n]), steps[n], p)
              else LeftBehind(s, steps[..n], p, i) && !Clears(Run(s, steps[..n]), steps[n], p)
  {
    var n := |steps| - 1;
    assert forall j :: 0 <= j <= n ==> steps[..n][..j] == steps[..j];
    if i < n && LeftBehind(s, steps, p, i) {
      assert steps[..n][i] == steps[i];
      forall j | i < j < n ensures !Clears(Run(s, steps[..n][..j]), steps[..n][j], p) {
        assert steps[..n][j] == steps[j];
      }
    }
    if i < n && LeftBehind(s, steps[..n], p, i) && !Clears(Run(s, steps[..n]), steps[n], p) {
      forall j | i < j < |steps| ensures !Clears(Run(s, steps[..j]), steps[j], p) {
        if j < n { assert steps[..n][j] == steps[j]; }
      }
    }
  }

  /** The history is what the schedule left behind. */
  lemma {:induction false} CaughtIsLeftBehind(s: State, steps: seq<Step>, p: (int, nat))
    requires Init(s)
    ensures p in Run(s, steps).caught <==> exists i :: LeftBehind(s, steps, p, i)
    decreases |steps|
  {
    if steps != [] {
      var n := |steps| - 1;
      var before, step := Run(s, steps[..n]), steps[n];
      assert steps == steps[..n] + [step];
      RunConcat(s, steps[..n], [step]);
      var after := if Enabled(before, step) then Do(before, step) else before;
      assert Run(before, [step]) == Run(after, []);
      InitInv(s);
      RunKeepsInv(s, steps[..n]);
      if Enabled(before, step) { CaughtStep(before, step, p); }
      CaughtIsLeftBehind(s, steps[..n], p);
      forall i: nat { LeftBehindSnoc(s, steps, p, i); }
      if Catches(before, step, p) { assert LeftBehind(s, steps, p, n); }
      if p in before.caught && !Clears(before, step, p) {
        var i :| LeftBehind(s, steps[..n], p, i);
        assert LeftBehind(s, steps, p, i);
      }
    }
  }

  /**
   * Over every schedule: once the index is READY and the applier idle, the index is exact if and only
   * if the scan left no document behind, caught inside an update's window and since neither deleted nor
   * set back to the value it had there.
   */
  lemma ReadyIsExactIff(s: State, steps: seq<Step>)
    requires Init(s)
    ensures var t := Run(s, steps);
            t.builder.Ready? && t.applier.Idle? ==>
              && (forall d :: LiveDoc(t, d) ==> (t.rows[d], d) in t.index)
              && (ExactOnLive(t.index, t.rows, t.deleted) <==> !exists p, i :: LeftBehind(s, steps, p, i))
  {
    InitInv(s);
    RunKeepsInv(s, steps);
    var t := Run(s, steps);
    forall p ensures p in t.caught <==> exists i :: LeftBehind(s, steps, p, i) { CaughtIsLeftBehind(s, steps, p); }
    if t.builder.Ready? && t.applier.Idle? {
      forall d | LiveDoc(t, d) ensures (t.rows[d], d) in t.index { assert Must(t, d); }
      if p :| p in t.caught { assert p in t.index && t.rows[p.1] != p.0; }
    }
  }

  /** If the lock was not taken inside an update's window, the finished index is exact. */
  lemma ExactWithoutWindow(s: State, steps: seq<Step>)
    requires Init(s)
    ensures var t := Run(s, steps);
            t.builder.Ready? && t.applier.Idle? && !t.window ==> ExactOnLive(t.index, t.rows, t.deleted)
  {
    InitInv(s);
    RunKeepsInv(s, steps);
    var t := Run(s, steps);
    forall p ensures p in t.caught <==> exists i :: LeftBehind(s, steps, p, i) { CaughtIsLeftBehind(s, steps, p); }
    ReadyIsExactIff(s, steps);
  }

  ghost predicate Reaches(s: State, t: State) {
    exists steps :: Run(s, steps) == t
  }

  lemma Extend(s: State, t: State, step: Step)
    requires Reaches(s, t) && Enabled(t, step)
    ensures Reaches(s, Do(t, step))
  {
    var steps :| Run(s, steps) == t;
    RunConcat(s, steps, [step]);
    assert Run(t, [step]) == Run(Do(t, step), []);
    assert Run(s, steps + [step]) == Do(t, step);
  }

  const FRESH := State(map[], 0, {}, {}, Idle, Unpublished, {}, false)
  const UNINDEXED := State(map[0 := 1], 1, {}, {}, Unindexed(0, 2), Published, {}, false)
  const PUT_BACK := State(map[0 := 1], 1, {}, {(1, 0)}, Unindexed(0, 2), Testing(1, 1), {(1, 0)}, true)
  const BOTH := State(map[0 := 2], 1, {}, {(1, 0), (2, 0)}, Idle, Ready, {(1, 0)}, true)

  /** A document with value 1 is added, the index published, and 1 is about to become 2. */
  lemma ReachUnindexed()
    ensures Reaches(FRESH, UNINDEXED)
  {
    assert Run(FRESH, []) == FRESH;
    var a := Do(FRESH, AddRow(1));
    Extend(FRESH, FRESH, AddRow(1));
    var b := Do(a, AddIndex);
    Extend(FRESH, a, AddIndex);
    var c := Do(b, AddBump);
    Extend(FRESH, b, AddBump);
    var d := Do(c, Publish);
    Extend(FRESH, c, Publish);
    assert d == State(map[0 := 1], 1, {}, {}, Idle, Published, {}, false);
    Extend(FRESH, d, UpdateUnindex(0, 2));
    assert Do(d, UpdateUnindex(0, 2)) == UNINDEXED;
  }

  /** The build takes the lock and puts the old value back. */
  lemma ReachPutBack()
    ensures Reaches(FRESH, PUT_BACK)
  {
    ReachUnindexed();
    var a := Do(UNINDEXED, Lock);
    Extend(FRESH, UNINDEXED, Lock);
    var b := Do(a, Test);
    Extend(FRESH, a, Test);
    var c := Do(b, Read);
    Extend(FRESH, b, Read);
    assert c == State(map[0 := 1], 1, {}, {}, Unindexed(0, 2), Putting(0, 1, 1), {(1, 0)}, true);
    Extend(FRESH, c, Put);
    assert Do(c, Put) == PUT_BACK;
  }

  /** A schedule ends with a READY index holding both the old and the new value of a live document. */
  lemma BuildCanLeaveStaleKey()
    ensures Init(FRESH) && Reaches(FRESH, BOTH)
    ensures LiveDoc(BOTH, 0) && !ExactOnLive(BOTH.index, BOTH.rows, BOTH.deleted)
  {
    ReachPutBack();
    var a := Do(PUT_BACK, Test);
    Extend(FRESH, PUT_BACK, Test);
    var b := Do(a, Read);
    Extend(FRESH, a, Read);
    var c := Do(b, Test);
    Extend(FRESH, b, Test);
    assert c == PUT_BACK.(builder := Ready);
    var d := Do(c, UpdateWrite);
    Extend(FRESH, c, UpdateWrite);
    assert d == State(map[0 := 2], 1, {}, {(1, 0)}, Rewritten(0), Ready, {(1, 0)}, true);
    Extend(FRESH, d, UpdateIndex);
    assert Do(d, UpdateIndex) == BOTH;
    assert (1, 0) in BOTH.index && BOTH.rows[0] == 2;
  }

  // Every write and every build comes to its end.

  function Next(s: State, step: Step): State {
    if Enabled(s, step) then Do(s, step) else s
  }

  lemma RunThree(s: State, a: Step, b: Step, c: Step)
    ensures Run(s, [a, b, c]) == Next(Next(Next(s, a), b), c)
  {
    assert [a, b, c][1..] == [b, c] && [b, c][1..] == [c] && [c][1..] == [];
    var t := Next(Next(s, a), b);
    assert Run(s, [a, b, c]) == Run(Next(s, a), [b, c]) && Run(Next(s, a), [b, c]) == Run(t, [c]);
    assert Run(t, [c]) == Run(Next(t, c), []) && Run(Next(t, c), []) == Next(t, c);
  }

  /** An add ends with the row stored, the document live and, once the index is published, its value in the index. */
  lemma AddGoesThrough(s: State, v: int)
    requires s.applier.Idle? && s.maxDocid !in s.deleted && !Scanning(s)
    ensures var t, d := Run(s, [AddRow(v), AddIndex, AddBump]), s.maxDocid;
            && t.applier.Idle? && t.maxDocid == d + 1 && t.rows == s.rows[d := v] && t.deleted == s.deleted
            && t.builder == s.builder && LiveDoc(t, d)
            && t.index == if s.builder.Unpublished? then s.index else s.index + {(v, d)}
  {
    RunThree(s, AddRow(v), AddIndex, AddBump);
  }

  /** A delete ends with the document deleted and, once the index is published, without its value in the index. */
  lemma DeleteGoesThrough(s: State, d: nat, w: int)
    requires s.applier.Idle? && LiveDoc(s, d) && !Scanning(s)
    ensures var t := Run(s, [DeleteMark(d), DeleteUnindex, DeleteKey(w)]);
            && t.applier.Idle? && t.maxDocid == s.maxDocid && t.deleted == s.deleted + {d} && !LiveDoc(t, d)
            && t.rows == s.rows[d := w] && t.builder == s.builder
            && t.index == if s.builder.Unpublished? then s.index else s.index - {(s.rows[d], d)}
  {
    RunThree(s, DeleteMark(d), DeleteUnindex, DeleteKey(w));
  }

  /** An update ends with the new value in the row and, once the index is published, in the index as well. */
  lemma UpdateGoesThrough(s: State, d: nat, v: int)
    requires s.applier.Idle? && LiveDoc(s, d) && v != s.rows[d] && !Scanning(s)
    ensures var t := Run(s, [UpdateUnindex(d, v), UpdateWrite, UpdateIndex]);
            && t.applier.Idle? && t.maxDocid == s.maxDocid && t.deleted == s.deleted && LiveDoc(t, d)
            && t.rows == s.rows[d := v] && t.builder == s.builder
            && t.index == if s.builder.Unpublished? then s.index else s.index - {(s.rows[d], d)} + {(v, d)}
  {
    RunThree(s, UpdateUnindex(d, v), UpdateWrite, UpdateIndex);
  }

  predicate IsBuild(step: Step) {
    step.Publish? || step.Lock? || step.Test? || step.Read? || step.Put?
  }

  /** A bound on the builder's steps once its last docid is fixed. */
  function BuildLeft(builder: Builder): nat {
    match builder
    case Testing(next, upper) => 1 + if next <= upper then 3 * (upper + 1 - next) else 0
    case Reading(next, upper) => if next <= upper then 3 * (upper + 1 - next) else 3
    case Putting(next, upper, _) => if next <= upper then 3 * (upper + 1 - next) - 1 else 2
    case _ => 0
  }

  /** The builder has a step until the index is READY, and each one brings that nearer. */
  lemma BuilderStepsOn(s: State) returns (step: Step)
    requires !s.builder.Ready?
    ensures IsBuild(step) && Enabled(s, step)
  {
    match s.builder
    case Unpublished => step := Publish;
    case Published => step := Lock;
    case Testing(_, _) => step := Test;
    case Reading(_, _) => step := Read;
    case Putting(_, _, _) => step := Put;
  }

  lemma BuildStep(s: State, step: Step)
    requires !s.builder.Unpublished? && !s.builder.Published? && Enabled(s, step)
    ensures !Do(s, step).builder.Unpublished? && !Do(s, step).builder.Published?
    ensures if IsBuild(step) then BuildLeft(Do(s, step).builder) < BuildLeft(s.builder)
            else Do(s, step).builder == s.builder
  {
  }

  /** How many steps the builder took in a schedule. */
  function BuildSteps(s: State, steps: seq<Step>): nat
    decreases steps
  {
    if steps == [] then 0
    else (if IsBuild(steps[0]) && Enabled(s, steps[0]) then 1 else 0) + BuildSteps(Next(s, steps[0]), steps[1..])
  }

  /** Over every interleaving with writes: the build is finished once the builder has taken the steps that were left. */
  lemma {:induction false} BuildFinishes(s: State, steps: seq<Step>)
    requires !s.builder.Unpublished? && !s.builder.Published? && BuildSteps(s, steps) >= BuildLeft(s.builder)
    ensures Run(s, steps).builder.Ready?
    decreases steps
  {
    if steps != [] {
      if Enabled(s, steps[0]) { BuildStep(s, steps[0]); }
      BuildFinishes(Next(s, steps[0]), steps[1..]);
    }
  }

  /** From the start: publishing and fixing the last docid leave this many steps. */
  lemma BuildBegins(s: State)
    requires s.builder.Unpublished?
    ensures var t := Run(s, [Publish, Lock]);
            t.builder == Testing(0, s.maxDocid) && t.index == {} && t.rows == s.rows && t.applier == s.applier
                && BuildLeft(t.builder) == 3 * (s.maxDocid + 1) + 1
  {
    assert [Publish, Lock][1..] == [Lock] && [Lock][1..] == [];
  }
}
