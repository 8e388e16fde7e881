/**
 * Indexes that come and go while the engine runs: AddFieldIndex and RemoveFieldIndex, the
 * maintenance worker, BUILDING markers, the schema the master keeps, crashes at any point
 * and the repair in Load. A document write is one step; index entries, markers and schema
 * are durable, everything else is lost in a crash.
 */
module IndexLifecycle {
  import opened KeyLayout
  import opened ScalarStore
  import opened ScalarQuery
  import opened RowKeys
  import opened Tables
  import opened Documents

  type Name = string

  datatype Task = Add(name: Name, slot: Slot) | Remove(name: Name)

  /** Where the maintenance worker stands in its task. */
  datatype Worker =
    | Idle
    | Adding(name: Name, slot: Slot)
    | Inserted(name: Name, slot: Slot)                         // published as BUILDING
    | Scanning(name: Name, slot: Slot, next: nat, upper: int)  // build_write_mutex_ held
    | Built(name: Name, slot: Slot)                            // READY, marker not yet deleted
    | Removing(name: Name)
    | Dropping(name: Name)                                     // marker deleted

  /** Load runs alone: no write, request or query is served before it returns. */
  datatype Phase =
    | Serving
    | Recovering(todo: set<Name>)
    | Rebuilding(todo: set<Name>, name: Name, slot: Slot, next: nat, upper: int)

  /**
   * docs.slots are the published index objects. ready are those in state READY; in Load an
   * index with a marker counts as READY only once it is rebuilt.
   */
  datatype State = State(
    docs: Docs,
    schema: map<Name, Slot>,
    markers: set<Name>,
    names: map<Name, Slot>,
    ready: set<Slot>,
    queue: seq<Task>,
    worker: Worker,
    phase: Phase)

  datatype Step =
    | Write(op: Op)
    | RequestAdd(name: Name, slot: Slot) | RequestRemove(name: Name)
    | List(name: Name, slot: Slot) | Unlist(name: Name)
    | Take | Insert | DropOld | Scan | Flip | Unmark
    | RemoveUnmark | RemoveDrop
    | Crash
    | RecoverNext(name: Name) | RecoverScan | RecoverFlip | RecoverDone

  predicate Enabled(ws: Widths, s: State, step: Step) {
    match step
    case Write(op) => s.phase.Serving? && !s.worker.Scanning? && OpOk(ws, s.docs, op) && !OpBreaks(ws, s.docs, op)
    case RequestAdd(_, _) => s.phase.Serving?
    case RequestRemove(_) => s.phase.Serving?
    case List(n, slot) => n !in s.schema && slot !in s.schema.Values && SlotOk(ws, slot)
    case Unlist(_) => true
    case Take => s.phase.Serving? && s.worker.Idle? && s.queue != []
    case Insert => s.worker.Adding?
    case DropOld => s.worker.Inserted?
    case Scan => s.worker.Scanning? && s.worker.next <= s.worker.upper
    case Flip => s.worker.Scanning? && s.worker.next > s.worker.upper
    case Unmark => s.worker.Built?
    case RemoveUnmark => s.worker.Removing?
    case RemoveDrop => s.worker.Dropping?
    case Crash => true
    case RecoverNext(n) => s.phase.Recovering? && n in s.phase.todo
    case RecoverScan => s.phase.Rebuilding? && s.phase.next <= s.phase.upper
    case RecoverFlip => s.phase.Rebuilding? && s.phase.next > s.phase.upper
    case RecoverDone => s.phase.Recovering? && s.phase.todo == {}
  }

  /** DropAll. */
  function Dropped(d: Docs, slot: Slot): Docs {
    d.(entries := WithoutSlot(d.entries, slot))
  }

  /** AddDoc of one docid in a build: skipped when deleted or without a row. */
  function Indexed(d: Docs, slot: Slot, docid: nat): Docs {
    if docid in d.deleted || docid !in d.rows then d
    else d.(entries := d.entries + {Entry(slot, Project(d.rows[docid], slot), docid)})
  }

  /** AddFieldIndex: a bad request is refused and a name still known is ignored. */
  function Requested(ws: Widths, s: State, n: Name, slot: Slot): State {
    if n == "" || !SlotOk(ws, slot) || n in s.names then s
    else s.(markers := s.markers + {n}, queue := s.queue + [Add(n, slot)])
  }

  /** Load up to the marker loop: the indexes are those of the schema. */
  function Restarted(s: State): State {
    s.(docs := s.docs.(slots := s.schema.Values),
       names := s.schema,
       ready := set n | n in s.schema && n !in s.markers :: s.schema[n],
       queue := [], worker := Idle, phase := Recovering(s.markers))
  }

  function Taken(s: State): State
    requires s.queue != []
  {
    s.(queue := s.queue[1..],
       worker := match s.queue[0] case Add(n, slot) => Adding(n, slot) case Remove(n) => Removing(n))
  }

  /** The marker is written again and the index published as BUILDING. */
  function Published(s: State): State
    requires s.worker.Adding?
  {
    var n, slot := s.worker.name, s.worker.slot;
    s.(markers := s.markers + {n}, names := s.names[n := slot], ready := s.ready - {slot},
       docs := s.docs.(slots := s.docs.slots + {slot}), worker := Inserted(n, slot))
  }

  function Scanned(s: State): State
    requires s.worker.Scanning?
  {
    s.(docs := Indexed(s.docs, s.worker.slot, s.worker.next), worker := s.worker.(next := s.worker.next + 1))
  }

  function RecoverScanned(s: State): State
    requires s.phase.Rebuilding?
  {
    s.(docs := Indexed(s.docs, s.phase.slot, s.phase.next), phase := s.phase.(next := s.phase.next + 1))
  }

  /** RemoveIndex after its marker delete: DropAll and unpublish in one critical section. */
  function RemovedIndex(s: State, n: Name): State {
    if n !in s.names then s.(worker := Idle)
    else if s.names[n] !in s.docs.slots then
      s.(names := s.names - {n}, ready := s.ready - {s.names[n]}, worker := Idle)
    else
      s.(docs := Dropped(s.docs, s.names[n]).(slots := s.docs.slots - {s.names[n]}),
         names := s.names - {n}, ready := s.ready - {s.names[n]}, worker := Idle)
  }

  function RecoveredNext(s: State, n: Name): State
    requires s.phase.Recovering? && n in s.phase.todo
  {
    if n !in s.names then s.(markers := s.markers - {n}, phase := Recovering(s.phase.todo - {n}))
    else
      s.(docs := Dropped(s.docs, s.names[n]), ready := s.ready - {s.names[n]},
         phase := Rebuilding(s.phase.todo - {n}, n, s.names[n], 0,
                             if s.docs.maxDocid > 0 then s.docs.maxDocid - 1 else 0))
  }

  function Do(ws: Widths, s: State, step: Step): State
    requires Enabled(ws, s, step)
  {
    match step
    case Write(op) => s.(docs := Written(ws, s.docs, op))
    case RequestAdd(n, slot) => Requested(ws, s, n, slot)
    case RequestRemove(n) => if n == "" then s else s.(queue := s.queue + [Remove(n)])
    case List(n, slot) => s.(schema := s.schema[n := slot])
    case Unlist(n) => s.(schema := s.schema - {n})
    case Take => Taken(s)
    case Insert => Published(s)
    case DropOld =>
      s.(docs := Dropped(s.docs, s.worker.slot),
         worker := Scanning(s.worker.name, s.worker.slot, 0, s.docs.maxDocid))
    case Scan => Scanned(s)
    case Flip => s.(ready := s.ready + {s.worker.slot}, worker := Built(s.worker.name, s.worker.slot))
    case Unmark => s.(markers := s.markers - {s.worker.name}, worker := Idle)
    case RemoveUnmark => s.(markers := s.markers - {s.worker.name}, worker := Dropping(s.worker.name))
    case RemoveDrop => RemovedIndex(s, s.worker.name)
    case Crash => Restarted(s)
    case RecoverNext(n) => RecoveredNext(s, n)
    case RecoverScan => RecoverScanned(s)
    case RecoverFlip =>
      s.(ready := s.ready + {s.phase.slot}, markers := s.markers - {s.phase.name}, phase := Recovering(s.phase.todo))
    case RecoverDone => s.(phase := Serving)
  }

  // Exactness of one slot under the steps.

  /** A build has come to next: the live documents below it are in, and nothing wrong is. */
  ghost predicate PartSlot(d: Docs, slot: Slot, next: nat) {
    && (forall x :: x in Live(d) && x < next ==> Entry(slot, Project(RowAt(d, x), slot), x) in d.entries)
    && (forall e :: e in d.entries && e.slot == slot && e.docid !in d.deleted ==>
          e.docid < d.maxDocid && e.vals == Project(RowAt(d, e.docid), slot))
  }

  predicate SameDocs(d: Docs, t: Docs) {
    d.rows == t.rows && d.maxDocid == t.maxDocid && d.deleted == t.deleted
  }

  /** Exactness depends on nothing but the documents and the slot's own entries. */
  lemma ExactFrame(d: Docs, t: Docs, slot: Slot)
    requires SameDocs(d, t) && SameSlot(d, t, slot)
    ensures ExactSlot(d, slot) <==> ExactSlot(t, slot)
  {
    assert Live(d) == Live(t);
    forall x | x in Live(d) ensures Entry(slot, Project(RowAt(d, x), slot), x) in d.entries <==>
                                    Entry(slot, Project(RowAt(t, x), slot), x) in t.entries
    {
      assert Entry(slot, Project(RowAt(d, x), slot), x).slot == slot;
    }
  }

  lemma IndexedPart(d: Docs, slot: Slot, next: nat)
    requires Live(d) <= d.rows.Keys <= UpTo(d.maxDocid) && PartSlot(d, slot, next)
    ensures PartSlot(Indexed(d, slot, next), slot, next + 1)
  {
    var t := Indexed(d, slot, next);
    assert Live(t) == Live(d) && t.rows == d.rows;
    forall x | x in Live(t) && x < next + 1 ensures Entry(slot, Project(RowAt(t, x), slot), x) in t.entries {
      if x < next { assert Entry(slot, Project(RowAt(d, x), slot), x) in d.entries; }
    }
  }

  lemma DroppedSame(d: Docs, slot: Slot, other: Slot)
    requires other != slot
    ensures SameDocs(d, Dropped(d, slot)) && SameSlot(d, Dropped(d, slot), other)
  {
  }

  lemma IndexedSame(d: Docs, slot: Slot, docid: nat, other: Slot)
    requires other != slot
    ensures SameDocs(d, Indexed(d, slot, docid)) && SameSlot(d, Indexed(d, slot, docid), other)
  {
  }

  // What every step keeps.

  ghost predicate Trusted(d: Docs, ready: set<Slot>) {
    forall slot :: slot in ready ==> ExactSlot(d, slot)
  }

  /** A build in progress: its index is published, not READY, and correct as far as it has come. */
  ghost predicate Building(s: State, slot: Slot, next: nat, upper: int) {
    slot in s.docs.slots && slot !in s.ready && upper + 1 >= s.docs.maxDocid && PartSlot(s.docs, slot, next)
  }

  predicate Injective(m: map<Name, Slot>) {
    forall a, b :: a in m && b in m && m[a] == m[b] ==> a == b
  }

  /** In Load, what is not yet READY is still to be rebuilt. */
  ghost predicate Loading(s: State)
    requires !s.phase.Serving?
  {
    && s.worker.Idle? && s.queue == [] && s.names.Values == s.docs.slots && Injective(s.names)
    && (forall n :: n in s.names ==>
         n in s.phase.todo || s.names[n] in s.ready || (s.phase.Rebuilding? && s.phase.name == n))
    && (forall n :: n in s.names && n in s.phase.todo ==> s.names[n] !in s.ready)
    && (s.phase.Rebuilding? ==>
          && s.phase.name !in s.phase.todo
          && Building(s, s.phase.slot, s.phase.next, s.phase.upper)
          && s.phase.name in s.names && s.names[s.phase.name] == s.phase.slot)
  }

  ghost predicate Tasks(ws: Widths, s: State) {
    && (forall t :: t in s.queue && t.Add? ==> SlotOk(ws, t.slot))
    && (s.worker.Adding? ==> SlotOk(ws, s.worker.slot))
    && (s.worker.Inserted? ==> s.worker.slot in s.docs.slots && s.worker.slot !in s.ready)
    && (s.worker.Scanning? ==> Building(s, s.worker.slot, s.worker.next, s.worker.upper))
    && (s.worker.Built? ==> s.worker.slot in s.ready)
    && (!s.phase.Serving? ==> Loading(s))
    && (s.phase.Serving? ==> forall slot :: slot in s.docs.slots ==>
          slot in s.ready || ((s.worker.Inserted? || s.worker.Scanning?) && s.worker.slot == slot))
  }

  /** Each READY index is exact; one published but not READY is being built. */
  ghost predicate Inv(ws: Widths, s: State) {
    && DocsOk(ws, s.docs) && SlotsOk(ws, s.schema.Values) && SlotsOk(ws, s.names.Values)
    && Injective(s.schema) && s.ready <= s.docs.slots && Trusted(s.docs, s.ready)
    && Tasks(ws, s)
  }

  /** What a restart relies on: each listed index has a marker or is READY. */
  predicate Covered(s: State) {
    forall n :: n in s.schema ==> n in s.markers || s.schema[n] in s.ready
  }

  lemma InvSlots(ws: Widths, d: Docs, slots: set<Slot>)
    requires DocsOk(ws, d) && SlotsOk(ws, slots)
    ensures DocsOk(ws, d.(slots := slots))
  {
    assert Live(d.(slots := slots)) == Live(d);
  }

  lemma InvEntries(ws: Widths, d: Docs, entries: set<Entry>)
    requires DocsOk(ws, d)
    ensures DocsOk(ws, d.(entries := entries))
  {
    assert Live(d.(entries := entries)) == Live(d);
  }

  lemma WriteKeepsInv(ws: Widths, s: State, op: Op)
    requires Inv(ws, s) && Enabled(ws, s, Write(op))
    ensures Inv(ws, Do(ws, s, Write(op)))
  {
    var d, t := s.docs, Written(ws, s.docs, op);
    if op.UpsertOp? { UpsertKeepsDocs(ws, d, op.key, op.fields, op.v); } else { DeleteKeepsDocs(ws, d, op.key); }
    forall slot | slot in s.ready ensures ExactSlot(t, slot) {
      if op.UpsertOp? {
        UpsertOnSlot(ws, d, op.key, op.fields, op.v, slot);
      } else {
        DeleteOnSlot(ws, d, op.key, slot);
      }
    }
  }

  /** Publishing or unpublishing leaves the entries alone. */
  lemma TrustedSlots(d: Docs, slots: set<Slot>, ready: set<Slot>)
    requires Trusted(d, ready)
    ensures Trusted(d.(slots := slots), ready)
  {
    forall slot | slot in ready ensures ExactSlot(d.(slots := slots), slot) {
      ExactFrame(d, d.(slots := slots), slot);
    }
  }

  lemma TrustedDrop(d: Docs, slot: Slot, ready: set<Slot>)
    requires Trusted(d, ready)
    ensures Trusted(Dropped(d, slot), ready - {slot})
  {
    forall other | other in ready - {slot} ensures ExactSlot(Dropped(d, slot), other) {
      DroppedSame(d, slot, other);
      ExactFrame(d, Dropped(d, slot), other);
    }
  }

  lemma TrustedIndexed(d: Docs, slot: Slot, docid: nat, ready: set<Slot>)
    requires Trusted(d, ready) && slot !in ready
    ensures Trusted(Indexed(d, slot, docid), ready)
  {
    forall other | other in ready ensures ExactSlot(Indexed(d, slot, docid), other) {
      IndexedSame(d, slot, docid, other);
      ExactFrame(d, Indexed(d, slot, docid), other);
    }
  }

  lemma DropOldKeepsInv(ws: Widths, s: State)
    requires Inv(ws, s) && s.worker.Inserted?
    ensures Inv(ws, Do(ws, s, DropOld))
  {
    InvEntries(ws, s.docs, WithoutSlot(s.docs.entries, s.worker.slot));
    TrustedDrop(s.docs, s.worker.slot, s.ready);
    assert s.ready - {s.worker.slot} == s.ready;
  }

  lemma ScanKeepsInv(ws: Widths, s: State)
    requires Inv(ws, s) && Enabled(ws, s, Scan)
    ensures Inv(ws, Do(ws, s, Scan))
  {
    InvEntries(ws, s.docs, Scanned(s).docs.entries);
    TrustedIndexed(s.docs, s.worker.slot, s.worker.next, s.ready);
    IndexedPart(s.docs, s.worker.slot, s.worker.next);
  }

  lemma FlipKeepsInv(ws: Widths, s: State, step: Step)
    requires Inv(ws, s) && Enabled(ws, s, step) && (step.Flip? || step.Unmark?)
    ensures Inv(ws, Do(ws, s, step))
  {
  }

  lemma RecoverNextLoading(s: State, n: Name)
    requires s.phase.Recovering? && n in s.phase.todo && Loading(s)
    ensures Loading(RecoveredNext(s, n))
  {
  }

  lemma RecoverNextKeepsInv(ws: Widths, s: State, n: Name)
    requires Inv(ws, s) && Enabled(ws, s, RecoverNext(n))
    ensures Inv(ws, Do(ws, s, RecoverNext(n)))
  {
    RecoverNextLoading(s, n);
    if n in s.names {
      InvEntries(ws, s.docs, WithoutSlot(s.docs.entries, s.names[n]));
      TrustedDrop(s.docs, s.names[n], s.ready);
    }
  }

  lemma RecoverScanKeepsInv(ws: Widths, s: State)
    requires Inv(ws, s) && Enabled(ws, s, RecoverScan)
    ensures Inv(ws, Do(ws, s, RecoverScan))
  {
    InvEntries(ws, s.docs, RecoverScanned(s).docs.entries);
    TrustedIndexed(s.docs, s.phase.slot, s.phase.next, s.ready);
    IndexedPart(s.docs, s.phase.slot, s.phase.next);
  }

  lemma RecoverFlipLoading(ws: Widths, s: State)
    requires Enabled(ws, s, RecoverFlip) && Loading(s)
    ensures Loading(Do(ws, s, RecoverFlip)) && ExactSlot(s.docs, s.phase.slot)
  {
  }

  lemma RecoverFlipKeepsInv(ws: Widths, s: State)
    requires Inv(ws, s) && Enabled(ws, s, RecoverFlip)
    ensures Inv(ws, Do(ws, s, RecoverFlip))
  {
    RecoverFlipLoading(ws, s);
  }

  lemma RecoverDoneKeepsInv(ws: Widths, s: State)
    requires Inv(ws, s) && Enabled(ws, s, RecoverDone)
    ensures Inv(ws, Do(ws, s, RecoverDone))
  {
  }

  /** A crash of a covered state loses nothing Load does not know to rebuild. */
  lemma CrashKeepsInv(ws: Widths, s: State)
    requires Inv(ws, s) && Covered(s)
    ensures Inv(ws, Do(ws, s, Crash))
  {
    var t := Restarted(s);
    InvSlots(ws, s.docs, s.schema.Values);
    assert t.ready <= s.ready;
    assert Trusted(s.docs, t.ready);
    TrustedSlots(s.docs, s.schema.Values, t.ready);
  }

  lemma RequestTasks(ws: Widths, s: State, step: Step)
    requires Tasks(ws, s) && s.phase.Serving? && (step.RequestAdd? || step.RequestRemove?)
    ensures Tasks(ws, Do(ws, s, step))
  {
  }

  lemma RequestKeepsInv(ws: Widths, s: State, step: Step)
    requires Inv(ws, s) && s.phase.Serving? && (step.RequestAdd? || step.RequestRemove?)
    ensures Inv(ws, Do(ws, s, step))
  {
    RequestTasks(ws, s, step);
    var t := Do(ws, s, step);
    assert t.docs == s.docs && t.ready == s.ready && t.schema == s.schema && t.names == s.names;
  }

  lemma TakeKeepsInv(ws: Widths, s: State)
    requires Inv(ws, s) && Enabled(ws, s, Take)
    ensures Inv(ws, Do(ws, s, Take))
  {
    assert s.queue[0] in s.queue;
    assert Tasks(ws, Do(ws, s, Take));
  }

  lemma ListKeepsInv(ws: Widths, s: State, step: Step)
    requires Inv(ws, s) && Enabled(ws, s, step) && (step.List? || step.Unlist?)
    ensures Inv(ws, Do(ws, s, step))
  {
    var t := Do(ws, s, step);
    assert t == s.(schema := t.schema);
    assert Tasks(ws, t) && DocsOk(ws, t.docs);
  }

  lemma InsertKeepsInv(ws: Widths, s: State)
    requires Inv(ws, s) && s.worker.Adding?
    ensures Inv(ws, Do(ws, s, Insert))
  {
    var slots := s.docs.slots + {s.worker.slot};
    InvSlots(ws, s.docs, slots);
    TrustedSlots(s.docs, slots, s.ready);
  }

  lemma RemoveKeepsInv(ws: Widths, s: State, step: Step)
    requires Inv(ws, s) && Enabled(ws, s, step) && (step.RemoveUnmark? || step.RemoveDrop?)
    ensures Inv(ws, Do(ws, s, step))
  {
    if step.RemoveDrop? && s.worker.name in s.names && s.names[s.worker.name] in s.docs.slots {
      var slot := s.names[s.worker.name];
      var d := Dropped(s.docs, slot);
      TrustedDrop(s.docs, slot, s.ready);
      InvEntries(ws, s.docs, d.entries);
      InvSlots(ws, d, s.docs.slots - {slot});
      TrustedSlots(d, s.docs.slots - {slot}, s.ready - {slot});
    }
  }

  lemma StepKeepsInv(ws: Widths, s: State, step: Step)
    requires Inv(ws, s) && Enabled(ws, s, step) && (step.Crash? ==> Covered(s))
    ensures Inv(ws, Do(ws, s, step))
  {
    match step
    case Write(op) => WriteKeepsInv(ws, s, op);
    case Insert => InsertKeepsInv(ws, s);
    case Crash => CrashKeepsInv(ws, s);
    case DropOld => DropOldKeepsInv(ws, s);
    case Scan => ScanKeepsInv(ws, s);
    case Flip => FlipKeepsInv(ws, s, step);
    case Unmark => FlipKeepsInv(ws, s, step);
    case RemoveUnmark => RemoveKeepsInv(ws, s, step);
    case RemoveDrop => RemoveKeepsInv(ws, s, step);
    case RecoverNext(n) => RecoverNextKeepsInv(ws, s, n);
    case RecoverScan => RecoverScanKeepsInv(ws, s);
    case RecoverFlip => RecoverFlipKeepsInv(ws, s);
    case RecoverDone => RecoverDoneKeepsInv(ws, s);
    case List(_, _) => ListKeepsInv(ws, s, step);
    case Unlist(_) => ListKeepsInv(ws, s, step);
    case Take => TakeKeepsInv(ws, s);
    case _ => RequestKeepsInv(ws, s, step);
  }

  /** A READY index over one field answers every query like a scan of the table. */
  lemma ReadyAnswersLikeScan(ws: Widths, s: State, f: nat, q: Query)
    requires Inv(ws, s) && [f] in s.ready
    ensures forall d :: d in s.docs.rows ==> f < |s.docs.rows[d]|
    ensures IndexAnswer(FieldPostings(s.docs, f), s.docs.maxDocid, q) - s.docs.deleted ==
            TableScan(Column(s.docs, f), s.docs.deleted, q)
  {
    assert SlotOk(ws, [f]) && [f][0] == f;
    ExactFieldAnswers(ws, s.docs, f);
    AnswerIsTableScan(FieldPostings(s.docs, f), Column(s.docs, f), s.docs.deleted, s.docs.maxDocid, q);
  }

  /** When Load returns, every index it found in the schema is READY. */
  lemma LoadMakesAllReady(ws: Widths, s: State)
    requires Inv(ws, s) && Enabled(ws, s, RecoverDone)
    ensures forall n :: n in s.names ==> s.names[n] in Do(ws, s, RecoverDone).ready
  {
  }

  // Requests that keep every listed index covered.

  predicate PendingAdd(s: State, n: Name, slot: Slot) {
    Add(n, slot) in s.queue || s.worker == Adding(n, slot)
  }

  /** The engine has the index, or a pending task will create it. */
  predicate Bound(s: State, n: Name, slot: Slot) {
    PendingAdd(s, n, slot) || (n in s.names && s.names[n] == slot)
  }

  predicate RemovePending(s: State, n: Name) {
    Remove(n) in s.queue || s.worker == Removing(n) || s.worker == Dropping(n)
  }

  /** The worker is carrying the removal out. */
  predicate BeingRemoved(s: State, n: Name) {
    s.worker == Removing(n) || s.worker == Dropping(n)
  }

  /**
   * The order a careful master keeps: a name or a field list is taken again only when the engine
   * has finished removing it, a name is listed only once its add is applied, and it is unlisted by
   * the time the worker takes its removal. The removal may be sent first.
   */
  ghost predicate Clean(s: State, step: Step) {
    match step
    case RequestAdd(n, slot) => !RemovePending(s, n) && forall m, x :: Bound(s, m, x) ==> (m == n <==> x == slot)
    case Take => s.queue != [] && s.queue[0].Remove? ==> s.queue[0].name !in s.schema
    case List(n, slot) => Bound(s, n, slot) && !BeingRemoved(s, n)
    case _ => true
  }

  ghost predicate OneToOne(s: State) {
    forall m, x, n, y :: Bound(s, m, x) && Bound(s, n, y) ==> (m == n <==> x == y)
  }

  /** No add waits behind a removal of the same name. */
  predicate InOrder(queue: seq<Task>) {
    forall i, j :: 0 <= i < j < |queue| && queue[i].Remove? && queue[j].Add? ==> queue[i].name != queue[j].name
  }

  lemma InOrderTail(queue: seq<Task>)
    requires InOrder(queue) && queue != []
    ensures InOrder(queue[1..])
    ensures queue[0].Remove? ==> forall slot :: Add(queue[0].name, slot) !in queue[1..]
  {
    if queue[0].Remove? {
      forall t | t in queue[1..] && t.Add? ensures t.name != queue[0].name {
        var j :| 0 <= j < |queue[1..]| && queue[1..][j] == t;
        assert queue[j + 1] == t;
      }
    }
  }

  lemma InOrderAppend(queue: seq<Task>, t: Task)
    requires InOrder(queue) && (t.Add? ==> Remove(t.name) !in queue)
    ensures InOrder(queue + [t])
  {
    var q := queue + [t];
    forall i, j | 0 <= i < j < |q| && q[i].Remove? && q[j].Add? ensures q[i].name != q[j].name {
      assert q[i] in queue;
    }
  }

  ghost predicate Marked(s: State) {
    && (s.worker.Removing? || s.worker.Dropping? ==> forall slot :: Add(s.worker.name, slot) !in s.queue)
    && (forall n, x :: Bound(s, n, x) ==> BeingRemoved(s, n) || n in s.markers || x in s.ready)
    && (s.worker.Inserted? || s.worker.Scanning? || s.worker.Built? ==>
          s.worker.name in s.names && s.names[s.worker.name] == s.worker.slot)
    && (!s.phase.Serving? ==> s.phase.todo <= s.markers)
    && (s.phase.Rebuilding? ==> s.phase.name in s.markers && s.phase.name !in s.phase.todo)
  }

  ghost predicate Disciplined(s: State) {
    && OneToOne(s) && InOrder(s.queue) && Marked(s)
    && (forall n :: n in s.schema ==> Bound(s, n, s.schema[n]) && !BeingRemoved(s, n))
  }

  lemma DisciplinedIsCovered(s: State)
    requires Disciplined(s)
    ensures Covered(s)
  {
    forall n | n in s.schema ensures n in s.markers || s.schema[n] in s.ready {
      assert Bound(s, n, s.schema[n]);
    }
  }

  lemma RequestAddClean(ws: Widths, s: State, n: Name, slot: Slot)
    requires Disciplined(s) && s.phase.Serving? && Clean(s, RequestAdd(n, slot))
    ensures Disciplined(Do(ws, s, RequestAdd(n, slot)))
  {
    var t := Do(ws, s, RequestAdd(n, slot));
    if t != s {
      assert forall m, x :: Bound(t, m, x) <==> Bound(s, m, x) || (m == n && x == slot);
      assert forall m :: RemovePending(t, m) <==> RemovePending(s, m);
      InOrderAppend(s.queue, Add(n, slot));
    }
  }

  lemma RequestRemoveClean(ws: Widths, s: State, n: Name)
    requires Disciplined(s) && s.phase.Serving?
    ensures Disciplined(Do(ws, s, RequestRemove(n)))
  {
    var t := Do(ws, s, RequestRemove(n));
    if t != s {
      assert forall m, x :: Bound(t, m, x) <==> Bound(s, m, x);
      assert forall m :: RemovePending(t, m) <==> RemovePending(s, m) || m == n;
      InOrderAppend(s.queue, Remove(n));
    }
  }

  lemma TakeClean(ws: Widths, s: State)
    requires Disciplined(s) && Enabled(ws, s, Take) && Clean(s, Take)
    ensures Disciplined(Do(ws, s, Take))
  {
    var t := Do(ws, s, Take);
    assert s.queue == [s.queue[0]] + t.queue;
    assert forall m, x :: Bound(t, m, x) <==> Bound(s, m, x);
    assert forall m :: RemovePending(t, m) <==> RemovePending(s, m);
    InOrderTail(s.queue);
  }

  /** Steps that leave tasks, names and phase alone, or only forget a listing. */
  lemma QuietClean(ws: Widths, s: State, step: Step)
    requires Disciplined(s) && Enabled(ws, s, step) && Clean(s, step)
    requires step.Write? || step.List? || step.Unlist? || step.DropOld? || step.Scan? || step.Flip?
    ensures Disciplined(Do(ws, s, step))
  {
    var t := Do(ws, s, step);
    assert forall m, x :: Bound(t, m, x) <==> Bound(s, m, x);
    assert forall m :: RemovePending(t, m) <==> RemovePending(s, m);
  }

  lemma InsertClean(ws: Widths, s: State)
    requires Disciplined(s) && s.worker.Adding?
    ensures Disciplined(Do(ws, s, Insert))
  {
    var t := Do(ws, s, Insert);
    assert Bound(s, s.worker.name, s.worker.slot);
    assert forall m, x :: Bound(t, m, x) ==> Bound(s, m, x);
    assert forall m, x :: Bound(s, m, x) ==> Bound(t, m, x);
    assert forall m :: RemovePending(t, m) <==> RemovePending(s, m);
  }

  lemma UnmarkClean(ws: Widths, s: State)
    requires Disciplined(s) && s.phase.Serving? && s.worker.Built? && s.worker.slot in s.ready
    ensures Disciplined(Do(ws, s, Unmark))
  {
    var t := Do(ws, s, Unmark);
    assert Bound(s, s.worker.name, s.worker.slot);
    assert forall m, x :: Bound(t, m, x) <==> Bound(s, m, x);
    assert forall m :: RemovePending(t, m) <==> RemovePending(s, m);
  }

  lemma RemoveUnmarkClean(ws: Widths, s: State)
    requires Disciplined(s) && s.phase.Serving? && s.worker.Removing?
    ensures Disciplined(Do(ws, s, RemoveUnmark))
  {
    var t := Do(ws, s, RemoveUnmark);
    assert forall m, x :: Bound(t, m, x) <==> Bound(s, m, x);
    assert forall m :: RemovePending(t, m) <==> RemovePending(s, m);
  }

  lemma RemoveDropClean(ws: Widths, s: State)
    requires Disciplined(s) && s.worker.Dropping?
    ensures Disciplined(Do(ws, s, RemoveDrop))
  {
    var n, t := s.worker.name, Do(ws, s, RemoveDrop);
    assert forall m, x :: Bound(t, m, x) <==> Bound(s, m, x) && m != n;
    assert forall m :: m != n ==> (RemovePending(t, m) <==> RemovePending(s, m));
    if n in s.names { assert Bound(s, n, s.names[n]); }
  }

  lemma CrashClean(ws: Widths, s: State)
    requires Disciplined(s) && Injective(s.schema)
    ensures Disciplined(Do(ws, s, Crash))
  {
    DisciplinedIsCovered(s);
    var t := Do(ws, s, Crash);
    assert forall m, x :: Bound(t, m, x) <==> m in s.schema && s.schema[m] == x;
    assert forall m :: !RemovePending(t, m);
  }

  lemma RecoverClean(ws: Widths, s: State, step: Step)
    requires Disciplined(s) && Enabled(ws, s, step) && (!s.phase.Serving? ==> Loading(s))
    requires step.RecoverNext? || step.RecoverScan? || step.RecoverFlip? || step.RecoverDone?
    ensures Disciplined(Do(ws, s, step))
  {
    var t := Do(ws, s, step);
    assert forall m, x :: Bound(t, m, x) <==> Bound(s, m, x);
    assert forall m :: !RemovePending(t, m) && !RemovePending(s, m);
    if step.RecoverNext? && step.name in s.names { assert Bound(s, step.name, s.names[step.name]); }
    if step.RecoverFlip? { assert Bound(s, s.phase.name, s.phase.slot); }
  }

  lemma StepClean(ws: Widths, s: State, step: Step)
    requires Inv(ws, s) && Disciplined(s) && Enabled(ws, s, step) && Clean(s, step)
    ensures Disciplined(Do(ws, s, step))
  {
    match step
    case RequestAdd(n, slot) => RequestAddClean(ws, s, n, slot);
    case RequestRemove(n) => RequestRemoveClean(ws, s, n);
    case Take => TakeClean(ws, s);
    case Insert => InsertClean(ws, s);
    case Unmark => UnmarkClean(ws, s);
    case RemoveUnmark => RemoveUnmarkClean(ws, s);
    case RemoveDrop => RemoveDropClean(ws, s);
    case Crash => CrashClean(ws, s);
    case RecoverNext(_) => RecoverClean(ws, s, step);
    case RecoverScan => RecoverClean(ws, s, step);
    case RecoverFlip => RecoverClean(ws, s, step);
    case RecoverDone => RecoverClean(ws, s, step);
    case _ => QuietClean(ws, s, step);
  }

  /** A step that is not enabled waits and changes nothing. */
  function Next(ws: Widths, s: State, step: Step): State {
    if Enabled(ws, s, step) then Do(ws, s, step) else s
  }

  function Run(ws: Widths, s: State, steps: seq<Step>): State
    decreases steps
  {
    if steps == [] then s else Run(ws, Next(ws, s, steps[0]), steps[1..])
  }

  ghost predicate CleanRun(ws: Widths, s: State, steps: seq<Step>)
    decreases steps
  {
    steps != [] ==>
      (Enabled(ws, s, steps[0]) ==> Clean(s, steps[0])) && CleanRun(ws, Next(ws, s, steps[0]), steps[1..])
  }

  ghost predicate CoveredCrashes(ws: Widths, s: State, steps: seq<Step>)
    decreases steps
  {
    steps != [] ==> (steps[0].Crash? ==> Covered(s)) && CoveredCrashes(ws, Next(ws, s, steps[0]), steps[1..])
  }

  /**
   * Over every run of writes, requests, worker steps, crashes and restarts: if each crash finds a
   * covered state, every READY index is exact at every point.
   */
  lemma {:induction false} ReadyStaysExact(ws: Widths, s: State, steps: seq<Step>)
    requires Inv(ws, s) && CoveredCrashes(ws, s, steps)
    ensures Inv(ws, Run(ws, s, steps))
    decreases steps
  {
    if steps != [] {
      if Enabled(ws, s, steps[0]) { StepKeepsInv(ws, s, steps[0]); }
      ReadyStaysExact(ws, Next(ws, s, steps[0]), steps[1..]);
    }
  }

  /** Over every clean run the state is covered at every point, so a crash anywhere is repaired. */
  lemma {:induction false} CleanRunStaysCovered(ws: Widths, s: State, steps: seq<Step>)
    requires Inv(ws, s) && Disciplined(s) && CleanRun(ws, s, steps)
    ensures Inv(ws, Run(ws, s, steps)) && Disciplined(Run(ws, s, steps)) && Covered(Run(ws, s, steps))
    decreases steps
  {
    DisciplinedIsCovered(s);
    if steps != [] {
      if Enabled(ws, s, steps[0]) {
        StepKeepsInv(ws, s, steps[0]);
        StepClean(ws, s, steps[0]);
      }
      CleanRunStaysCovered(ws, Next(ws, s, steps[0]), steps[1..]);
    }
  }

  /** A new engine whose schema lists its indexes from the start. */
  function NewEngine(schema: map<Name, Slot>): State {
    State(EmptyDocs(schema.Values), schema, {}, schema, schema.Values, [], Idle, Serving)
  }

  lemma NewEngineInv(ws: Widths, schema: map<Name, Slot>)
    requires SlotsOk(ws, schema.Values) && Injective(schema)
    ensures Inv(ws, NewEngine(schema)) && Disciplined(NewEngine(schema))
  {
    EmptyInv(ws, schema.Values);
    var s := NewEngine(schema);
    assert forall m, x :: Bound(s, m, x) <==> m in schema && schema[m] == x;
    assert forall m :: !RemovePending(s, m);
  }

  /** So from a new engine on, with covered crashes, every READY index is exact. */
  lemma NewEngineStaysExact(ws: Widths, schema: map<Name, Slot>, steps: seq<Step>, slot: Slot)
    requires SlotsOk(ws, schema.Values) && Injective(schema) && CoveredCrashes(ws, NewEngine(schema), steps)
    ensures var t := Run(ws, NewEngine(schema), steps); slot in t.ready ==> ExactSlot(t.docs, slot)
  {
    NewEngineInv(ws, schema);
    ReadyStaysExact(ws, NewEngine(schema), steps);
  }

  /** And under a careful master every crash is a covered one. */
  lemma NewEngineStaysCovered(ws: Widths, schema: map<Name, Slot>, steps: seq<Step>, slot: Slot)
    requires SlotsOk(ws, schema.Values) && Injective(schema) && CleanRun(ws, NewEngine(schema), steps)
    ensures var t := Run(ws, NewEngine(schema), steps); Covered(t) && (slot in t.ready ==> ExactSlot(t.docs, slot))
  {
    NewEngineInv(ws, schema);
    CleanRunStaysCovered(ws, NewEngine(schema), steps);
  }

  // Exactly when a restart can be trusted.

  /** The indexes Load trusts as persisted hold exactly the current values. */
  ghost predicate RestartExact(s: State) {
    forall n :: n in s.schema && n !in s.markers ==> ExactSlot(s.docs, s.schema[n])
  }

  lemma {:induction false} WritesKeepInv(ws: Widths, s: State, ops: seq<Op>)
    requires Inv(ws, s) && s.phase.Serving? && !s.worker.Scanning? && OpsOk(ws, s.docs, ops)
    ensures Inv(ws, s.(docs := WriteAll(ws, s.docs, ops)))
    decreases ops
  {
    if ops != [] {
      WriteKeepsInv(ws, s, ops[0]);
      WritesKeepInv(ws, Do(ws, s, Write(ops[0])), ops[1..]);
    } else {
      assert s.(docs := WriteAll(ws, s.docs, ops)) == s;
    }
  }

  function Repeat(n: nat): (r: string)
    ensures |r| == n
  {
    if n == 0 then "" else "k" + Repeat(n - 1)
  }

  lemma {:induction false} LongerThanAll(keys: set<Key>) returns (n: nat)
    ensures forall k :: k in keys ==> |k| <= n
  {
    n := 0;
    if keys != {} {
      var k :| k in keys;
      n := LongerThanAll(keys - {k});
      n := if |k| > n then |k| else n;
    }
  }

  /** An insert that no index over the slot records leaves it incomplete. */
  lemma UnmaintainedInsert(ws: Widths, d: Docs, slot: Slot, key: Key)
    requires DocsOk(ws, d) && DocidOk(d.maxDocid) && slot !in d.slots && ExactSlot(d, slot)
    requires key != "" && key !in d.keyToDocid
    ensures OpOk(ws, d, UpsertOp(key, map[], Takes))
    ensures !ExactSlot(Written(ws, d, UpsertOp(key, map[], Takes)), slot)
  {
    var t := Written(ws, d, UpsertOp(key, map[], Takes));
    assert t == Added(ws, d, key, map[]);
    AddOnSlot(ws, d, key, map[], slot);
    var e := Entry(slot, Project(RowAt(t, d.maxDocid), slot), d.maxDocid);
    assert d.maxDocid in Live(t);
    assert e.slot == slot && e !in d.entries;
    assert e !in t.entries;
  }

  /** No listed index without a marker is the one being built. */
  predicate NotInHand(s: State) {
    && s.phase.Serving? && !s.worker.Scanning?
    && (s.worker.Inserted? ==> forall n :: n in s.schema && n !in s.markers ==> s.schema[n] != s.worker.slot)
  }

  lemma UncoveredBreaks(ws: Widths, s: State)
    requires Inv(ws, s) && NotInHand(s) && DocidOk(s.docs.maxDocid) && !Covered(s)
    ensures exists ops :: OpsOk(ws, s.docs, ops) && !RestartExact(s.(docs := WriteAll(ws, s.docs, ops)))
  {
    var n :| n in s.schema && n !in s.markers && s.schema[n] !in s.ready;
    if ExactSlot(s.docs, s.schema[n]) {
      var len := LongerThanAll(s.docs.keyToDocid.Keys);
      var key := Repeat(len + 1);
      UnmaintainedInsert(ws, s.docs, s.schema[n], key);
      var ops := [UpsertOp(key, map[], Takes)];
      assert ops[1..] == [];
      assert WriteAll(ws, s.docs, ops) == Written(ws, s.docs, ops[0]);
      assert OpsOk(ws, s.docs, ops);
    } else {
      assert WriteAll(ws, s.docs, []) == s.docs && OpsOk(ws, s.docs, []);
      assert s.(docs := WriteAll(ws, s.docs, [])) == s;
    }
  }

  /**
   * Unless a build has the lock, or the index in hand is itself listed without a marker, being covered
   * is exactly what makes a restart safe, whatever writes come before it.
   */
  lemma RestartSafeIffCovered(ws: Widths, s: State)
    requires Inv(ws, s) && NotInHand(s) && DocidOk(s.docs.maxDocid)
    ensures Covered(s) <==>
            forall ops :: OpsOk(ws, s.docs, ops) ==> RestartExact(s.(docs := WriteAll(ws, s.docs, ops)))
  {
    if Covered(s) {
      forall ops | OpsOk(ws, s.docs, ops) ensures RestartExact(s.(docs := WriteAll(ws, s.docs, ops))) {
        WritesKeepInv(ws, s, ops);
      }
    } else {
      UncoveredBreaks(ws, s);
    }
  }

  predicate IsRecovery(step: Step) {
    step.RecoverNext? || step.RecoverScan? || step.RecoverFlip? || step.RecoverDone?
  }

  /** Load holds the slot READY and no marker leads to it. */
  predicate Skipped(s: State, slot: Slot) {
    && slot in s.ready
    && (s.phase.Rebuilding? ==> s.phase.slot != slot)
    && (!s.phase.Serving? ==> forall n :: n in s.names && n in s.phase.todo ==> s.names[n] != slot)
  }

  lemma RecoveryStepSkips(ws: Widths, s: State, step: Step, slot: Slot)
    requires Skipped(s, slot) && IsRecovery(step) && Enabled(ws, s, step)
    ensures var t := Do(ws, s, step);
            Skipped(t, slot) && (ExactSlot(t.docs, slot) <==> ExactSlot(s.docs, slot))
  {
    var t := Do(ws, s, step);
    assert SameDocs(s.docs, t.docs) && SameSlot(s.docs, t.docs, slot);
    ExactFrame(s.docs, t.docs, slot);
  }

  lemma {:induction false} RecoverySkips(ws: Widths, s: State, steps: seq<Step>, slot: Slot)
    requires Skipped(s, slot) && forall i :: 0 <= i < |steps| ==> IsRecovery(steps[i])
    ensures var t := Run(ws, s, steps); Skipped(t, slot) && (ExactSlot(t.docs, slot) <==> ExactSlot(s.docs, slot))
    decreases steps
  {
    if steps != [] {
      if Enabled(ws, s, steps[0]) { RecoveryStepSkips(ws, s, steps[0], slot); }
      RecoverySkips(ws, Next(ws, s, steps[0]), steps[1..], slot);
    }
  }

  /** Load leaves an index without a marker READY as it is: right or wrong, exactly as the crash found it. */
  lemma LoadTrustsUnmarked(ws: Widths, s: State, steps: seq<Step>, n: Name)
    requires n in s.schema && n !in s.markers && Injective(s.schema)
    requires forall i :: 0 <= i < |steps| ==> IsRecovery(steps[i])
    ensures var t := Run(ws, Restarted(s), steps);
            s.schema[n] in t.ready && (ExactSlot(t.docs, s.schema[n]) <==> ExactSlot(s.docs, s.schema[n]))
  {
    RecoverySkips(ws, Restarted(s), steps, s.schema[n]);
    ExactFrame(s.docs, Restarted(s).docs, s.schema[n]);
  }

  lemma RunCons(ws: Widths, s: State, step: Step, rest: seq<Step>)
    ensures Run(ws, s, [step] + rest) == Run(ws, Next(ws, s, step), rest)
  {
    assert ([step] + rest)[1..] == rest;
  }

  /** Over a disciplined run the index in hand always has a marker. */
  lemma DisciplinedNotInHand(ws: Widths, s: State)
    requires Inv(ws, s) && Disciplined(s) && s.phase.Serving? && !s.worker.Scanning?
    ensures NotInHand(s)
  {
    if s.worker.Inserted? {
      assert Bound(s, s.worker.name, s.worker.slot);
      forall n | n in s.schema && n !in s.markers ensures s.schema[n] != s.worker.slot {
        assert Bound(s, n, s.schema[n]);
      }
    }
  }

  /** A removal carried out while the name is listed uncovers it. */
  lemma RemovingListedUncovers(ws: Widths, s: State, n: Name)
    requires s.worker == Removing(n) && n in s.schema && n in s.names && s.names[n] == s.schema[n]
    ensures var t := Run(ws, s, [RemoveUnmark, RemoveDrop]);
            t.worker.Idle? && t.queue == s.queue && n !in t.names && !Covered(t)
  {
    RunCons(ws, s, RemoveUnmark, [RemoveDrop]);
    RunCons(ws, Do(ws, s, RemoveUnmark), RemoveDrop, []);
    assert [RemoveUnmark] + [RemoveDrop] == [RemoveUnmark, RemoveDrop] && [RemoveDrop] + [] == [RemoveDrop];
    var t := Run(ws, s, [RemoveUnmark, RemoveDrop]);
    assert n in t.schema && n !in t.markers && t.schema[n] !in t.ready;
  }

  /**
   * The master's undo of a failed removal sends an add right behind it. The name is still known,
   * so the add is answered OK and ignored, and the removal leaves the listed index uncovered.
   */
  lemma AddBehindRemovalIsLost(ws: Widths, s: State, n: Name)
    requires s.phase.Serving? && s.worker.Idle? && s.queue == [] && n != ""
    requires n in s.schema && n in s.names && s.names[n] == s.schema[n]
    ensures var t := Run(ws, s, [RequestRemove(n), RequestAdd(n, s.schema[n]), Take] + [RemoveUnmark, RemoveDrop]);
            t.worker.Idle? && t.queue == [] && n !in t.names && !Covered(t)
  {
    var add, last := RequestAdd(n, s.schema[n]), [RemoveUnmark, RemoveDrop];
    var a := Do(ws, s, RequestRemove(n));
    RunCons(ws, s, RequestRemove(n), [add, Take] + last);
    RunCons(ws, a, add, [Take] + last);
    RunCons(ws, a, Take, last);
    assert [RequestRemove(n), add, Take] + last == [RequestRemove(n)] + ([add, Take] + last);
    assert [add, Take] + last == [add] + ([Take] + last);
    RemovingListedUncovers(ws, Do(ws, a, Take), n);
  }
}
