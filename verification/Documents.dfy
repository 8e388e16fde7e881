/**
 * The document state of a Gamma engine and what AddOrUpdate and Delete do to it, as
 * functions on values: rows, key -> docid map, delete bitmap and scalar index entries.
 */
module Documents {
  import opened KeyLayout
  import opened ScalarStore
  import opened ScalarQuery
  import opened RowKeys
  import opened Tables

  /**
   * ids holds the stored "_id" strings, slots the indexes a write must maintain. Deleting a
   * document removes its key and its "_id" string but leaves its numeric row in storage.
   */
  datatype Docs = Docs(
    rows: map<nat, Row>,
    ids: map<nat, Key>,
    keyToDocid: map<Key, nat>,
    maxDocid: nat,
    deleted: set<nat>,
    deleteNum: nat,
    slots: set<Slot>,
    entries: set<Entry>)

  function EmptyDocs(slots: set<Slot>): Docs {
    Docs(map[], map[], map[], 0, {}, 0, slots, {})
  }

  predicate SlotsOk(ws: Widths, slots: set<Slot>) {
    forall s :: s in slots ==> SlotOk(ws, s)
  }

  /** One document's entries, one per index. */
  function DocEntries(slots: set<Slot>, row: Row, docid: nat): set<Entry> {
    set s | s in slots :: Entry(s, Project(row, s), docid)
  }

  /** The indexes an update touches: those with a field whose value changes. */
  predicate Touched(slot: Slot, row: Row, fields: Fields) {
    exists i :: 0 <= i < |slot| && slot[i] < |row| && slot[i] in fields && fields[slot[i]] != row[slot[i]]
  }

  function TouchedSlots(slots: set<Slot>, row: Row, fields: Fields): set<Slot> {
    set s | s in slots && Touched(s, row, fields)
  }

  function Live(s: Docs): set<nat> {
    UpTo(s.maxDocid) - s.deleted
  }

  /** Engine::Update once the vectors are written: unindex, write the row, index again. */
  function Update(ws: Widths, s: Docs, docid: nat, fields: Fields): Docs
    requires docid in s.rows
  {
    var before, after := s.rows[docid], UpdatedRow(s.rows[docid], fields);
    var touched := TouchedSlots(s.slots, before, fields);
    s.(rows := s.rows[docid := after],
       entries := s.entries - DocEntries(touched, before, docid) + DocEntries(touched, after, docid))
  }

  /** Table::Add and ScalarIndexManager::AddDoc, before the vectors are stored. */
  function AddRow(ws: Widths, s: Docs, key: Key, fields: Fields): Docs {
    var row := NewRow(ws, fields);
    s.(rows := s.rows[s.maxDocid := row],
       ids := s.ids[s.maxDocid := key],
       keyToDocid := s.keyToDocid[key := s.maxDocid],
       entries := s.entries + DocEntries(s.slots, row, s.maxDocid))
  }

  /** CheckDoc on the table fields. */
  predicate KnownFields(ws: Widths, fields: Fields) {
    forall i :: i in fields ==> i < |ws|
  }

  /**
   * What the vector side does with a write: refuse it, take it, or take it although a trained
   * index cannot be extended. The last one is reported as 1.
   */
  datatype Vectors = Rejects | Takes | TakesUnindexed

  function Code(v: Vectors): int {
    if v.TakesUnindexed? then 1 else 0
  }

  /**
   * AddOrUpdate: the new state and the return code. An update reported as 1 counts as an error, and
   * one whose row is gone fails unless it has no fields.
   */
  function Upsert(ws: Widths, s: Docs, key: Key, fields: Fields, v: Vectors): (r: (Docs, int)) {
    if key in s.keyToDocid && s.keyToDocid[key] < s.maxDocid then
      if v.Rejects? then (s, -1)
      else if s.keyToDocid[key] !in s.rows then (s, if |fields| == 0 && Code(v) == 0 then 0 else -1)
      else (Update(ws, s, s.keyToDocid[key], fields), if Code(v) != 0 then -1 else 0)
    else if key in s.keyToDocid then (s, -2)
    else if !KnownFields(ws, fields) then (s, -3)
    else if key == "" then (s, -4)
    else if v.Rejects? then (AddRow(ws, s, key, fields), -5)
    else (Added(ws, s, key, fields), Code(v))
  }

  /** One document's entries, if it has a row to read them from. */
  function EntriesAt(slots: set<Slot>, rows: map<nat, Row>, docid: nat): set<Entry> {
    if docid in rows then DocEntries(slots, rows[docid], docid) else {}
  }

  /**
   * Engine::Delete: the new state and the return code. Table::Delete also deletes the text of the key
   * in the rows' own column family, and with it a row or "_id" string stored under that text.
   */
  function Delete(ws: Widths, s: Docs, key: Key): (r: (Docs, int)) {
    if key !in s.keyToDocid then (s, -1)
    else
      var docid := s.keyToDocid[key];
      if docid in s.deleted then (s, 0)
      else (s.(deleted := s.deleted + {docid}, deleteNum := s.deleteNum + 1,
               entries := s.entries - EntriesAt(s.slots, s.rows, docid),
               rows := RowsWithout(s.rows, key), ids := IdsWithout(s.ids, key) - {docid},
               keyToDocid := s.keyToDocid - {key}), 0)
  }

  /** The key is the storage key of another live document's row or "_id" string. */
  predicate Erases(s: Docs, key: Key) {
    && key in s.keyToDocid
    && exists d :: d in Live(s) && d != s.keyToDocid[key] && (RowKey(d) == key || IdKey(d) == key)
  }

  function RowAt(s: Docs, d: nat): Row {
    if d in s.rows then s.rows[d] else []
  }

  /**
   * On documents that are not deleted, the index over this slot holds exactly the current
   * values. Deleted documents may linger in it.
   */
  ghost predicate ExactSlot(s: Docs, slot: Slot) {
    && (forall d :: d in Live(s) ==> Entry(slot, Project(RowAt(s, d), slot), d) in s.entries)
    && (forall e :: e in s.entries && e.slot == slot && e.docid !in s.deleted ==>
          e.docid < s.maxDocid && e.vals == Project(RowAt(s, e.docid), slot))
  }

  /** Every maintained index is exact, and there is no other entry. */
  ghost predicate EntriesExact(s: Docs) {
    && (forall t :: t in s.slots ==> ExactSlot(s, t))
    && (forall e :: e in s.entries ==> e.slot in s.slots && e.docid !in s.deleted)
  }

  /** Keys and live docids are in one-to-one correspondence, the key being the docid's "_id". */
  ghost predicate KeysExact(s: Docs) {
    && (forall k :: k in s.keyToDocid ==>
          s.keyToDocid[k] in Live(s) && s.keyToDocid[k] in s.ids && s.ids[s.keyToDocid[k]] == k)
    && (forall d :: d in Live(s) ==> d in s.ids && s.ids[d] in s.keyToDocid && s.keyToDocid[s.ids[d]] == d)
  }

  ghost predicate DocsOk(ws: Widths, s: Docs) {
    && SlotsOk(ws, s.slots) && RowsOk(ws, s.rows)
    && Live(s) <= s.rows.Keys <= UpTo(s.maxDocid) && s.ids.Keys == Live(s)
    && s.deleted <= UpTo(s.maxDocid) && s.deleteNum == |s.deleted|
    && KeysExact(s)
  }

  ghost predicate Inv(ws: Widths, s: Docs) {
    DocsOk(ws, s) && EntriesExact(s)
  }

  lemma EmptyInv(ws: Widths, slots: set<Slot>)
    requires SlotsOk(ws, slots)
    ensures Inv(ws, EmptyDocs(slots))
  {
  }

  /** The state after a successful add. */
  function Added(ws: Widths, s: Docs, key: Key, fields: Fields): Docs {
    AddRow(ws, s, key, fields).(maxDocid := s.maxDocid + 1)
  }

  lemma UntouchedProject(slot: Slot, row: Row, fields: Fields)
    requires !Touched(slot, row, fields)
    ensures Project(UpdatedRow(row, fields), slot) == Project(row, slot)
  {
  }

  // What a write does to the entries of one slot: an index it maintains stays exact, any
  // other slot's entries stay as they are.

  ghost predicate SameSlot(s: Docs, t: Docs, slot: Slot) {
    forall e: Entry :: e.slot == slot ==> (e in s.entries <==> e in t.entries)
  }

  lemma UpdateOnSlot(ws: Widths, s: Docs, docid: nat, fields: Fields, slot: Slot)
    requires SlotsOk(ws, s.slots) && RowsOk(ws, s.rows) && docid in s.rows && docid in Live(s)
    ensures slot in s.slots && ExactSlot(s, slot) ==> ExactSlot(Update(ws, s, docid, fields), slot)
    ensures slot !in s.slots ==> SameSlot(s, Update(ws, s, docid, fields), slot)
  {
    var t := Update(ws, s, docid, fields);
    var before := s.rows[docid];
    if slot in s.slots && ExactSlot(s, slot) {
      if !Touched(slot, before, fields) { UntouchedProject(slot, before, fields); }
      assert slot in TouchedSlots(s.slots, before, fields) <==> Touched(slot, before, fields);
      forall d | d in Live(t) ensures Entry(slot, Project(RowAt(t, d), slot), d) in t.entries {
        assert Entry(slot, Project(RowAt(s, d), slot), d) in s.entries;
      }
    }
  }

  lemma AddOnSlot(ws: Widths, s: Docs, key: Key, fields: Fields, slot: Slot)
    requires SlotsOk(ws, s.slots) && s.deleted <= UpTo(s.maxDocid)
    ensures slot in s.slots && ExactSlot(s, slot) ==> ExactSlot(Added(ws, s, key, fields), slot)
    ensures slot !in s.slots ==> SameSlot(s, Added(ws, s, key, fields), slot)
  {
    var t := Added(ws, s, key, fields);
    assert Live(t) == Live(s) + {s.maxDocid};
    if slot in s.slots && ExactSlot(s, slot) {
      forall d | d in Live(t) ensures Entry(slot, Project(RowAt(t, d), slot), d) in t.entries {
        if d != s.maxDocid { assert Entry(slot, Project(RowAt(s, d), slot), d) in s.entries; }
      }
    }
  }

  lemma DeleteOnSlot(ws: Widths, s: Docs, key: Key, slot: Slot)
    requires SlotsOk(ws, s.slots) && RowsOk(ws, s.rows) && !Erases(s, key)
    ensures slot in s.slots && ExactSlot(s, slot) ==> ExactSlot(Delete(ws, s, key).0, slot)
    ensures slot !in s.slots ==> SameSlot(s, Delete(ws, s, key).0, slot)
  {
    var t := Delete(ws, s, key).0;
    if slot in s.slots && ExactSlot(s, slot) && t != s {
      assert Live(t) == Live(s) - {s.keyToDocid[key]};
      forall d | d in Live(t) ensures RowAt(t, d) == RowAt(s, d) {}
      forall d | d in Live(t) ensures Entry(slot, Project(RowAt(t, d), slot), d) in t.entries {
        assert Entry(slot, Project(RowAt(s, d), slot), d) in s.entries;
      }
      forall e | e in t.entries && e.slot == slot && e.docid !in t.deleted
        ensures e.docid < t.maxDocid && e.vals == Project(RowAt(t, e.docid), slot)
      {
        assert e.docid in Live(t);
      }
    }
  }

  // What a write does to keys and rows.

  lemma UpdateKeepsDocs(ws: Widths, s: Docs, docid: nat, fields: Fields)
    requires DocsOk(ws, s) && FieldsOk(ws, fields) && docid in Live(s)
    ensures DocsOk(ws, Update(ws, s, docid, fields))
    ensures Grows(s, Update(ws, s, docid, fields))
  {
    assert Live(Update(ws, s, docid, fields)) == Live(s);
  }

  lemma AddKeepsKeys(ws: Widths, s: Docs, key: Key, fields: Fields)
    requires SlotsOk(ws, s.slots) && s.deleted <= UpTo(s.maxDocid) && KeysExact(s) && key !in s.keyToDocid
    ensures KeysExact(Added(ws, s, key, fields))
  {
    var t := Added(ws, s, key, fields);
    assert Live(t) == Live(s) + {s.maxDocid};
  }

  lemma AddKeepsRows(ws: Widths, s: Docs, key: Key, fields: Fields)
    requires SlotsOk(ws, s.slots) && RowsOk(ws, s.rows) && FieldsOk(ws, fields) && DocidOk(s.maxDocid)
    requires Live(s) <= s.rows.Keys <= UpTo(s.maxDocid) && s.ids.Keys == Live(s) && s.deleted <= UpTo(s.maxDocid)
    ensures var t := Added(ws, s, key, fields);
            RowsOk(ws, t.rows) && Live(t) <= t.rows.Keys <= UpTo(t.maxDocid) && t.ids.Keys == Live(t)
  {
    assert RowOk(ws, NewRow(ws, fields));
    assert Live(Added(ws, s, key, fields)) == Live(s) + {s.maxDocid};
  }

  lemma AddKeepsDocs(ws: Widths, s: Docs, key: Key, fields: Fields)
    requires DocsOk(ws, s) && FieldsOk(ws, fields) && DocidOk(s.maxDocid) && key !in s.keyToDocid
    ensures DocsOk(ws, Added(ws, s, key, fields))
    ensures Grows(s, Added(ws, s, key, fields))
  {
    AddKeepsRows(ws, s, key, fields);
    AddKeepsKeys(ws, s, key, fields);
  }

  /** A new document whose vectors are refused after its row and key are written. */
  predicate Leaks(ws: Widths, s: Docs, key: Key, fields: Fields, v: Vectors) {
    v.Rejects? && key !in s.keyToDocid && KnownFields(ws, fields) && key != ""
  }

  /** Any other upsert is an update, an add, or no change. */
  lemma UpsertCases(ws: Widths, s: Docs, key: Key, fields: Fields, v: Vectors)
    requires DocsOk(ws, s) && !Leaks(ws, s, key, fields, v)
    ensures var t := Upsert(ws, s, key, fields, v).0;
            || t == s
            || (key in s.keyToDocid && s.keyToDocid[key] in Live(s) && t == Update(ws, s, s.keyToDocid[key], fields))
            || (key !in s.keyToDocid && t == Added(ws, s, key, fields))
  {
    if key in s.keyToDocid { assert s.keyToDocid[key] in Live(s); }
  }

  lemma UpsertKeepsDocs(ws: Widths, s: Docs, key: Key, fields: Fields, v: Vectors)
    requires DocsOk(ws, s) && FieldsOk(ws, fields) && DocidOk(s.maxDocid) && !Leaks(ws, s, key, fields, v)
    ensures DocsOk(ws, Upsert(ws, s, key, fields, v).0)
    ensures Grows(s, Upsert(ws, s, key, fields, v).0)
  {
    UpsertCases(ws, s, key, fields, v);
    if Upsert(ws, s, key, fields, v).0 != s {
      if key in s.keyToDocid {
        UpdateKeepsDocs(ws, s, s.keyToDocid[key], fields);
      } else {
        AddKeepsDocs(ws, s, key, fields);
      }
    }
  }

  lemma UpsertOnSlot(ws: Widths, s: Docs, key: Key, fields: Fields, v: Vectors, slot: Slot)
    requires DocsOk(ws, s) && !Leaks(ws, s, key, fields, v)
    ensures slot in s.slots && ExactSlot(s, slot) ==> ExactSlot(Upsert(ws, s, key, fields, v).0, slot)
    ensures slot !in s.slots ==> SameSlot(s, Upsert(ws, s, key, fields, v).0, slot)
  {
    UpsertCases(ws, s, key, fields, v);
    if Upsert(ws, s, key, fields, v).0 != s {
      if key in s.keyToDocid {
        UpdateOnSlot(ws, s, s.keyToDocid[key], fields, slot);
      } else {
        AddOnSlot(ws, s, key, fields, slot);
      }
    }
  }

  lemma UpsertOnEntries(ws: Widths, s: Docs, key: Key, fields: Fields, v: Vectors)
    requires Inv(ws, s) && !Leaks(ws, s, key, fields, v)
    ensures EntriesExact(Upsert(ws, s, key, fields, v).0)
  {
    var t := Upsert(ws, s, key, fields, v).0;
    UpsertCases(ws, s, key, fields, v);
    forall slot | slot in t.slots ensures ExactSlot(t, slot) {
      UpsertOnSlot(ws, s, key, fields, v, slot);
    }
  }

  /** An upsert keeps the state exact if and only if it is not a new document whose vectors are refused. */
  lemma UpsertKeepsInvIff(ws: Widths, s: Docs, key: Key, fields: Fields, v: Vectors)
    requires Inv(ws, s) && FieldsOk(ws, fields) && DocidOk(s.maxDocid)
    ensures Inv(ws, Upsert(ws, s, key, fields, v).0) <==> !Leaks(ws, s, key, fields, v)
    ensures !Leaks(ws, s, key, fields, v) ==> Grows(s, Upsert(ws, s, key, fields, v).0)
  {
    var t := Upsert(ws, s, key, fields, v).0;
    if Leaks(ws, s, key, fields, v) {
      assert t.keyToDocid[key] == t.maxDocid && t.maxDocid !in Live(t);
    } else {
      UpsertKeepsDocs(ws, s, key, fields, v);
      UpsertOnEntries(ws, s, key, fields, v);
    }
  }

  /** Keys lead to live docids, and different keys to different ones. */
  lemma KeysAreOwners(s: Docs, key: Key)
    requires KeysExact(s) && key in s.keyToDocid
    ensures forall k :: k in s.keyToDocid ==> s.keyToDocid[k] in Live(s)
    ensures forall k :: k in s.keyToDocid && k != key ==> s.keyToDocid[k] != s.keyToDocid[key]
  {
    forall k | k in s.keyToDocid ensures s.ids[s.keyToDocid[k]] == k {}
  }

  lemma DeleteLive(ws: Widths, s: Docs, key: Key)
    requires DocsOk(ws, s) && key in s.keyToDocid
    ensures Live(Delete(ws, s, key).0) == Live(s) - {s.keyToDocid[key]}
    ensures Delete(ws, s, key).0.deleted == s.deleted + {s.keyToDocid[key]}
    ensures Grows(s, Delete(ws, s, key).0)
  {
    KeysAreOwners(s, key);
  }

  lemma DeleteKeepsKeys(ws: Widths, s: Docs, key: Key)
    requires DocsOk(ws, s) && !Erases(s, key) && key in s.keyToDocid
    ensures var t := Delete(ws, s, key).0; KeysExact(t) && t.ids.Keys == Live(t) && Live(t) <= t.rows.Keys
  {
    KeysAreOwners(s, key);
    DeleteLive(ws, s, key);
    var t := Delete(ws, s, key).0;
    forall d | d in Live(t) ensures d in t.rows && d in t.ids && t.ids[d] == s.ids[d] {
      assert RowKey(d) != key && IdKey(d) != key;
    }
  }

  lemma DeleteKeepsDocs(ws: Widths, s: Docs, key: Key)
    requires DocsOk(ws, s) && !Erases(s, key)
    ensures DocsOk(ws, Delete(ws, s, key).0)
    ensures Grows(s, Delete(ws, s, key).0)
  {
    if key in s.keyToDocid {
      KeysAreOwners(s, key);
      DeleteLive(ws, s, key);
      DeleteKeepsKeys(ws, s, key);
    }
  }

  lemma DeleteOnEntries(ws: Widths, s: Docs, key: Key)
    requires Inv(ws, s) && !Erases(s, key)
    ensures EntriesExact(Delete(ws, s, key).0)
  {
    var t := Delete(ws, s, key).0;
    forall u | u in t.slots ensures ExactSlot(t, u) {
      DeleteOnSlot(ws, s, key, u);
    }
    forall e | e in t.entries ensures e.slot in t.slots && e.docid !in t.deleted {
      assert e in s.entries && ExactSlot(s, e.slot);
      assert e == Entry(e.slot, Project(RowAt(s, e.docid), e.slot), e.docid);
    }
  }

  /** A delete keeps the state exact if and only if the key is no other live document's storage key. */
  lemma DeleteKeepsInvIff(ws: Widths, s: Docs, key: Key)
    requires Inv(ws, s)
    ensures Inv(ws, Delete(ws, s, key).0) <==> !Erases(s, key)
    ensures !Erases(s, key) ==> Grows(s, Delete(ws, s, key).0)
  {
    var t := Delete(ws, s, key).0;
    if Erases(s, key) {
      assert s.keyToDocid[key] in Live(s);
      var d :| d in Live(s) && d != s.keyToDocid[key] && (RowKey(d) == key || IdKey(d) == key);
      assert d in Live(t) && (d !in t.rows || d !in t.ids);
    } else {
      DeleteKeepsDocs(ws, s, key);
      DeleteOnEntries(ws, s, key);
    }
  }

  /** What the documents mean to a client: the row stored under each key, if the docid is live. */
  function Contents(s: Docs): map<Key, Row> {
    map k | k in s.keyToDocid && Seen(s, k) :: s.rows[s.keyToDocid[k]]
  }

  predicate Seen(s: Docs, k: Key) {
    k in s.keyToDocid && s.keyToDocid[k] in Live(s) && s.keyToDocid[k] in s.rows
  }

  ghost predicate Agree(a: map<Key, Row>, b: map<Key, Row>, k: Key) {
    (k in a <==> k in b) && (k in a && k in b ==> a[k] == b[k])
  }

  lemma AgreeIsEqual(a: map<Key, Row>, b: map<Key, Row>)
    requires forall k :: Agree(a, b, k)
    ensures a == b
  {
    assert forall k :: k in a <==> k in b by { forall k ensures k in a <==> k in b { assert Agree(a, b, k); } }
    forall k | k in a ensures a[k] == b[k] { assert Agree(a, b, k); }
  }

  lemma UpdateMeaning(ws: Widths, s: Docs, key: Key, fields: Fields)
    requires DocsOk(ws, s) && key in s.keyToDocid
    ensures key in Contents(s) && s.keyToDocid[key] in s.rows
    ensures Contents(Update(ws, s, s.keyToDocid[key], fields))
              == Contents(s)[key := UpdatedRow(Contents(s)[key], fields)]
    ensures |UpdatedRow(Contents(s)[key], fields)| == |Contents(s)[key]| == |ws|
  {
    assert s.keyToDocid[key] in Live(s) && Live(Update(ws, s, s.keyToDocid[key], fields)) == Live(s);
    forall k | k in s.keyToDocid && k != key ensures s.keyToDocid[k] != s.keyToDocid[key] {
      assert s.ids[s.keyToDocid[k]] == k;
    }
  }

  lemma AddMeaningAt(ws: Widths, s: Docs, key: Key, fields: Fields, k: Key)
    requires DocsOk(ws, s) && key !in s.keyToDocid
    ensures Agree(Contents(Added(ws, s, key, fields)), Contents(s)[key := NewRow(ws, fields)], k)
    ensures Agree(Contents(AddRow(ws, s, key, fields)), Contents(s), k)
  {
    assert Live(Added(ws, s, key, fields)) == Live(s) + {s.maxDocid};
    assert Live(AddRow(ws, s, key, fields)) == Live(s);
    if k in s.keyToDocid { assert s.keyToDocid[k] in Live(s); }
  }

  lemma AddMeaning(ws: Widths, s: Docs, key: Key, fields: Fields)
    requires DocsOk(ws, s) && key !in s.keyToDocid
    ensures Contents(Added(ws, s, key, fields)) == Contents(s)[key := NewRow(ws, fields)]
    ensures Contents(AddRow(ws, s, key, fields)) == Contents(s)
  {
    forall k { AddMeaningAt(ws, s, key, fields, k); }
    AgreeIsEqual(Contents(Added(ws, s, key, fields)), Contents(s)[key := NewRow(ws, fields)]);
    AgreeIsEqual(Contents(AddRow(ws, s, key, fields)), Contents(s));
  }

  /** Requests that are carried out: vectors not refused, any known key, and new keys with fields the table has. */
  predicate Admitted(ws: Widths, s: Docs, key: Key, fields: Fields, v: Vectors) {
    !v.Rejects? && (key in s.keyToDocid || (KnownFields(ws, fields) && key != ""))
  }

  /** One key holds the given fields, elsewhere its old values or zeros if it is new; all other keys are as before. */
  predicate Holds(ws: Widths, before: map<Key, Row>, after: map<Key, Row>, key: Key, fields: Fields) {
    && key in after && after - {key} == before - {key} && |after[key]| == |ws|
    && forall i :: 0 <= i < |ws| ==>
         after[key][i] == if i in fields then fields[i]
                          else if key in before && i < |before[key]| then before[key][i]
                          else 0
  }

  /**
   * An admitted upsert creates or merges one key, and any other changes nothing a client can see. It
   * is reported as an error although carried out exactly when it updates and the trained index
   * cannot be extended.
   */
  lemma UpsertMeaning(ws: Widths, s: Docs, key: Key, fields: Fields, v: Vectors)
    requires DocsOk(ws, s)
    ensures var r := Upsert(ws, s, key, fields, v);
            && (r.1 >= 0 <==> Admitted(ws, s, key, fields, v) && !(v.TakesUnindexed? && key in s.keyToDocid))
            && (key in Contents(s) ==> |Contents(s)[key]| == |ws|)
            && if Admitted(ws, s, key, fields, v) then Holds(ws, Contents(s), Contents(r.0), key, fields)
               else Contents(r.0) == Contents(s)
  {
    if key in s.keyToDocid {
      assert s.keyToDocid[key] in Live(s);
      UpdateMeaning(ws, s, key, fields);
      UpdateHolds(ws, Contents(s), key, fields);
    } else {
      AddMeaning(ws, s, key, fields);
      AddHolds(ws, Contents(s), key, fields);
    }
  }

  lemma UpdateHolds(ws: Widths, before: map<Key, Row>, key: Key, fields: Fields)
    requires key in before && |before[key]| == |ws|
    ensures Holds(ws, before, before[key := UpdatedRow(before[key], fields)], key, fields)
  {
  }

  lemma AddHolds(ws: Widths, before: map<Key, Row>, key: Key, fields: Fields)
    requires key !in before
    ensures Holds(ws, before, before[key := NewRow(ws, fields)], key, fields)
  {
  }

  /** The return code of every upsert: a known key's, or why a new one is not admitted. */
  lemma UpsertCode(ws: Widths, s: Docs, key: Key, fields: Fields, v: Vectors)
    requires DocsOk(ws, s)
    ensures Upsert(ws, s, key, fields, v).1 ==
            if key in s.keyToDocid then (if v.Takes? then 0 else -1)
            else if exists i :: i in fields && i >= |ws| then -3
            else if key == "" then -4
            else match v case Rejects => -5 case Takes => 0 case TakesUnindexed => 1
  {
    if key in s.keyToDocid { assert s.keyToDocid[key] in Live(s); }
  }

  /** The keys whose row is stored under this text. */
  function KeysAt(s: Docs, text: Key): set<Key> {
    set k | k in s.keyToDocid && RowKey(s.keyToDocid[k]) == text
  }

  /** What a delete takes out of the contents: its key, and the key whose row is stored under that text. */
  function Gone(s: Docs, key: Key): set<Key> {
    if key in s.keyToDocid then {key} + KeysAt(s, key) else {}
  }

  lemma DeleteMeaningAt(ws: Widths, s: Docs, key: Key, k: Key)
    requires DocsOk(ws, s) && key in s.keyToDocid
    ensures Agree(Contents(Delete(ws, s, key).0), Contents(s) - Gone(s, key), k)
  {
    KeysAreOwners(s, key);
    DeleteLive(ws, s, key);
    var t := Delete(ws, s, key).0;
    assert k in Contents(t) <==>
        k in s.keyToDocid && k != key && s.keyToDocid[k] in s.rows && RowKey(s.keyToDocid[k]) != key;
  }

  /** A delete takes its key from the contents, and with it the key whose row is stored under that text. */
  lemma DeleteMeaning(ws: Widths, s: Docs, key: Key)
    requires DocsOk(ws, s)
    ensures Contents(Delete(ws, s, key).0) == Contents(s) - Gone(s, key)
    ensures Delete(ws, s, key).1 == if key in Contents(s) then 0 else -1
  {
    if key in s.keyToDocid {
      KeysAreOwners(s, key);
      forall k { DeleteMeaningAt(ws, s, key, k); }
      AgreeIsEqual(Contents(Delete(ws, s, key).0), Contents(s) - Gone(s, key));
    } else {
      assert Contents(s) - Gone(s, key) == Contents(s);
    }
  }

  datatype Op = UpsertOp(key: Key, fields: Fields, v: Vectors) | DeleteOp(key: Key)

  /** A request the signed 64-bit docid space has room for. */
  predicate OpOk(ws: Widths, s: Docs, op: Op) {
    op.UpsertOp? ==> FieldsOk(ws, op.fields) && DocidOk(s.maxDocid)
  }

  /** The two writes that break the state: a refused new document, and a delete of a storage key. */
  predicate OpBreaks(ws: Widths, s: Docs, op: Op) {
    if op.UpsertOp? then Leaks(ws, s, op.key, op.fields, op.v) else Erases(s, op.key)
  }

  /** What AddOrUpdate and Delete need of the state. */
  predicate Writable(ws: Widths, s: Docs) {
    SlotsOk(ws, s.slots) && RowsOk(ws, s.rows)
  }

  /** One write. */
  function Written(ws: Widths, s: Docs, op: Op): Docs {
    match op
    case UpsertOp(key, fields, v) => Upsert(ws, s, key, fields, v).0
    case DeleteOp(key) => Delete(ws, s, key).0
  }

  /** Also a write that breaks the state leaves one the next write can work on. */
  lemma WrittenStaysWritable(ws: Widths, s: Docs, op: Op)
    requires Writable(ws, s) && OpOk(ws, s, op)
    ensures Writable(ws, Written(ws, s, op))
  {
    if op.UpsertOp? {
      assert RowOk(ws, NewRow(ws, op.fields));
      if op.key in s.keyToDocid && s.keyToDocid[op.key] in s.rows {
        assert RowOk(ws, UpdatedRow(s.rows[s.keyToDocid[op.key]], op.fields));
      }
    }
  }

  /** A sequence of writes. */
  function WriteAll(ws: Widths, s: Docs, ops: seq<Op>): Docs
    decreases ops
  {
    if ops == [] then s else WriteAll(ws, Written(ws, s, ops[0]), ops[1..])
  }

  /** None of them breaks the state it meets. */
  predicate OpsOk(ws: Widths, s: Docs, ops: seq<Op>)
    decreases ops
  {
    ops != [] ==> OpOk(ws, s, ops[0]) && !OpBreaks(ws, s, ops[0]) && OpsOk(ws, Written(ws, s, ops[0]), ops[1..])
  }

  ghost predicate StepAt(ws: Widths, states: seq<Docs>, ops: seq<Op>, i: nat)
    requires i < |ops| && |states| == |ops| + 1
  {
    OpOk(ws, states[i], ops[i]) && states[i + 1] == Written(ws, states[i], ops[i])
  }

  ghost predicate IsRun(ws: Widths, states: seq<Docs>, ops: seq<Op>) {
    |states| == |ops| + 1 && forall i :: 0 <= i < |ops| ==> StepAt(ws, states, ops, i)
  }

  predicate BreaksAt(ws: Widths, states: seq<Docs>, ops: seq<Op>, i: nat) {
    i < |ops| && i < |states| && OpBreaks(ws, states[i], ops[i])
  }

  /** None of the first n writes breaks the state. */
  predicate Tight(ws: Widths, states: seq<Docs>, ops: seq<Op>, n: nat) {
    forall i: nat :: i < n ==> !BreaksAt(ws, states, ops, i)
  }

  lemma StepKeepsInvIff(ws: Widths, s: Docs, op: Op)
    requires Inv(ws, s) && OpOk(ws, s, op)
    ensures Inv(ws, Written(ws, s, op)) <==> !OpBreaks(ws, s, op)
    ensures !OpBreaks(ws, s, op) ==> Grows(s, Written(ws, s, op))
  {
    if op.UpsertOp? {
      UpsertKeepsInvIff(ws, s, op.key, op.fields, op.v);
    } else {
      DeleteKeepsInvIff(ws, s, op.key);
    }
  }

  /** Docids are never taken back: a key keeps its docid until that is deleted, and the frontier only moves up. */
  predicate Grows(s: Docs, t: Docs) {
    && s.maxDocid <= t.maxDocid && s.deleted <= t.deleted && s.slots == t.slots
    && (forall k :: k in s.keyToDocid ==>
          s.keyToDocid[k] in t.deleted || (k in t.keyToDocid && t.keyToDocid[k] == s.keyToDocid[k]))
  }

  /** Over every run the state is exact up to the first write that breaks it. */
  lemma {:induction false} RunKeepsInv(ws: Widths, states: seq<Docs>, ops: seq<Op>, j: nat)
    requires IsRun(ws, states, ops) && Inv(ws, states[0]) && j < |states| && Tight(ws, states, ops, j)
    ensures Inv(ws, states[j])
    ensures j > 0 ==> Grows(states[j - 1], states[j])
  {
    if j > 0 {
      RunKeepsInv(ws, states, ops, j - 1);
      assert StepAt(ws, states, ops, j - 1) && !BreaksAt(ws, states, ops, j - 1);
      StepKeepsInvIff(ws, states[j - 1], ops[j - 1]);
    }
  }

  /** A run is exact at every point if and only if none of its writes breaks it. */
  lemma {:induction false} RunExactIff(ws: Widths, states: seq<Docs>, ops: seq<Op>)
    requires IsRun(ws, states, ops) && Inv(ws, states[0])
    ensures (forall j :: 0 <= j < |states| ==> Inv(ws, states[j])) <==> Tight(ws, states, ops, |ops|)
  {
    if Tight(ws, states, ops, |ops|) {
      forall j | 0 <= j < |states| ensures Inv(ws, states[j]) { RunKeepsInv(ws, states, ops, j); }
    }
    if forall j :: 0 <= j < |states| ==> Inv(ws, states[j]) {
      forall i: nat | i < |ops| ensures !BreaksAt(ws, states, ops, i) {
        assert StepAt(ws, states, ops, i) && Inv(ws, states[i]) && Inv(ws, states[i + 1]);
        StepKeepsInvIff(ws, states[i], ops[i]);
      }
    }
  }

  /** Over every such run a docid keeps its owner until it is deleted, and a deletion is never taken back. */
  lemma {:induction false} RunGrows(ws: Widths, states: seq<Docs>, ops: seq<Op>, i: nat, j: nat)
    requires IsRun(ws, states, ops) && Inv(ws, states[0]) && i <= j < |states| && Tight(ws, states, ops, j)
    ensures Grows(states[i], states[j])
    decreases j
  {
    if i < j {
      RunGrows(ws, states, ops, i, j - 1);
      RunKeepsInv(ws, states, ops, j);
    }
  }

  /** A docid that served one key is never reused for another. */
  lemma DocidsNeverReused(ws: Widths, states: seq<Docs>, ops: seq<Op>, i: nat, j: nat, a: Key, b: Key)
    requires IsRun(ws, states, ops) && Inv(ws, states[0])
    requires i <= j < |states| && Tight(ws, states, ops, j)
    requires a in states[i].keyToDocid && b in states[j].keyToDocid
    requires states[i].keyToDocid[a] == states[j].keyToDocid[b]
    ensures a == b
  {
    RunKeepsInv(ws, states, ops, i);
    RunKeepsInv(ws, states, ops, j);
    RunGrows(ws, states, ops, i, j);
    var d, t := states[i].keyToDocid[a], states[j];
    assert d in Live(t);
    assert t.ids[t.keyToDocid[a]] == a && t.ids[t.keyToDocid[b]] == b;
  }

  lemma {:induction false} UpToSize(n: nat)
    ensures |UpTo(n)| == n
  {
    if n > 0 { UpToSize(n - 1); }
  }

  lemma {:induction false} InjectionSize(keys: set<Key>, image: set<nat>, m: map<Key, nat>)
    requires forall k :: k in keys ==> k in m && m[k] in image
    requires forall a, b :: a in keys && b in keys && m[a] == m[b] ==> a == b
    requires forall d :: d in image ==> exists k :: k in keys && m[k] == d
    ensures |keys| == |image|
  {
    if keys != {} {
      var k :| k in keys;
      forall d | d in image - {m[k]} ensures exists a :: a in keys - {k} && m[a] == d {
        var a :| a in keys && m[a] == d;
        assert a in keys - {k};
      }
      InjectionSize(keys - {k}, image - {m[k]}, m);
    } else {
      assert image == {};
    }
  }

  /** GetDocsNum: max_docid_ - delete_num_ counts the live keys. */
  lemma DocsNumIsKeyCount(ws: Widths, s: Docs)
    requires Inv(ws, s)
    ensures s.maxDocid - s.deleteNum == |s.keyToDocid| == |Contents(s)|
  {
    UpToSize(s.maxDocid);
    forall d | d in Live(s) ensures exists k :: k in s.keyToDocid.Keys && s.keyToDocid[k] == d {
      assert s.ids[d] in s.keyToDocid.Keys;
    }
    InjectionSize(s.keyToDocid.Keys, Live(s), s.keyToDocid);
    assert forall k :: k in s.keyToDocid ==> s.keyToDocid[k] in Live(s);
    assert Contents(s).Keys == s.keyToDocid.Keys;
  }

  /** One indexed field's postings and column. */
  function PostingsIn(entries: set<Entry>, f: nat): Postings {
    set e | e in entries && e.slot == [f] && |e.vals| == 1 :: (e.vals[0], e.docid)
  }

  function FieldPostings(s: Docs, f: nat): Postings {
    PostingsIn(s.entries, f)
  }

  function Column(s: Docs, f: nat): map<nat, int>
    requires forall d :: d in s.rows ==> f < |s.rows[d]|
  {
    map d | d in s.rows :: s.rows[d][f]
  }

  /** A field whose index is exact answers queries like a scan of its column. */
  lemma ExactFieldAnswers(ws: Widths, s: Docs, f: nat)
    requires DocsOk(ws, s) && f < |ws| && ExactSlot(s, [f])
    ensures forall d :: d in s.rows ==> f < |s.rows[d]|
    ensures ExactOnLive(FieldPostings(s, f), Column(s, f), s.deleted)
    ensures Column(s, f).Keys - s.deleted == UpTo(s.maxDocid) - s.deleted
  {
    assert [f][0] == f;
    var ps, column := FieldPostings(s, f), Column(s, f);
    forall d | d in column && d !in s.deleted ensures (column[d], d) in ps {
      var e := Entry([f], Project(RowAt(s, d), [f]), d);
      assert d in Live(s) && e in s.entries;
      assert (e.vals[0], e.docid) == (column[d], d);
    }
  }

  /** So every indexed field does, at every point of a run. */
  lemma IndexedFieldIsExact(ws: Widths, s: Docs, f: nat)
    requires Inv(ws, s) && [f] in s.slots
    ensures f < |ws| && forall d :: d in s.rows ==> f < |s.rows[d]|
    ensures ExactOnLive(FieldPostings(s, f), Column(s, f), s.deleted)
    ensures Column(s, f).Keys - s.deleted == UpTo(s.maxDocid) - s.deleted
  {
    assert SlotOk(ws, [f]) && [f][0] == f;
    ExactFieldAnswers(ws, s, f);
  }

  /** Every index, composite or not, holds a live document under its current values in the index's fields only. */
  lemma IndexHoldsCurrentValues(ws: Widths, s: Docs, slot: Slot, vals: seq<int>, d: nat)
    requires Inv(ws, s) && slot in s.slots && d in Live(s)
    ensures d in s.rows && |s.rows[d]| == |ws| && forall i :: 0 <= i < |slot| ==> slot[i] < |ws|
    ensures Entry(slot, vals, d) in s.entries <==>
              |vals| == |slot| && forall i :: 0 <= i < |slot| ==> vals[i] == s.rows[d][slot[i]]
  {
    assert SlotOk(ws, slot) && ExactSlot(s, slot);
    var current := Project(RowAt(s, d), slot);
    assert Entry(slot, current, d) in s.entries;
    if |vals| == |slot| && forall i :: 0 <= i < |slot| ==> vals[i] == s.rows[d][slot[i]] { assert vals == current; }
  }

  // What the two breaking writes lead to.

  /**
   * A delete of a key that is the storage key of another document's row erases that row: the document
   * stays live under its key, and no update of it succeeds any more.
   */
  lemma ErasedRow(ws: Widths, s: Docs, key: Key, other: Key)
    requires DocsOk(ws, s) && key in s.keyToDocid && other in s.keyToDocid && key != other
    requires key == RowKey(s.keyToDocid[other])
    ensures var t, d := Delete(ws, s, key).0, s.keyToDocid[other];
            && other in t.keyToDocid && t.keyToDocid[other] == d && d in Live(t) && d !in t.rows
                 && other !in Contents(t)
            && Writable(ws, t)
            && (forall fields, v :: |fields| > 0 ==> Upsert(ws, t, other, fields, v) == (t, -1))
  {
    KeysAreOwners(s, key);
    DeleteLive(ws, s, key);
  }

  /** Its index entries stay, so every index over it holds a value the table does not have. */
  lemma ErasedRowLingers(ws: Widths, s: Docs, key: Key, other: Key, slot: Slot)
    requires Inv(ws, s) && key in s.keyToDocid && other in s.keyToDocid && key != other && slot in s.slots
    requires key == RowKey(s.keyToDocid[other])
    ensures var t, d := Delete(ws, s, key).0, s.keyToDocid[other];
            d in s.rows && d !in t.rows && d !in t.deleted && Entry(slot, Project(s.rows[d], slot), d) in t.entries
  {
    KeysAreOwners(s, key);
    ErasedRow(ws, s, key, other);
    var d := s.keyToDocid[other];
    assert Entry(slot, Project(RowAt(s, d), slot), d) in s.entries;
  }

  /** A delete of a key that is the storage key of another document's "_id" string erases that string. */
  lemma ErasedId(ws: Widths, s: Docs, key: Key, other: Key)
    requires Inv(ws, s) && key in s.keyToDocid && other in s.keyToDocid && key != other
    requires key == IdKey(s.keyToDocid[other])
    ensures var t, d := Delete(ws, s, key).0, s.keyToDocid[other];
            other in t.keyToDocid && t.keyToDocid[other] == d && d in Live(t) && d in t.rows && d !in t.ids
  {
    KeysAreOwners(s, key);
    DeleteLive(ws, s, key);
    RowKeysApart(s.keyToDocid[other], s.keyToDocid[other]);
  }

  lemma ZeroKey()
    ensures RowKey(0) == "0000000000"
  {
    assert Padded(0, 1) == "0" && Padded(0, 2) == "00" && Padded(0, 3) == "000" && Padded(0, 4) == "0000";
    assert Padded(0, 5) == "00000" && Padded(0, 6) == "000000" && Padded(0, 7) == "0000000";
    assert Padded(0, 8) == "00000000" && Padded(0, 9) == "000000000" && Padded(0, 10) == "0000000000";
  }

  lemma AddEmpty(ws: Widths, s: Docs, key: Key)
    requires Inv(ws, s) && DocidOk(s.maxDocid) && key !in s.keyToDocid && key != ""
    ensures Upsert(ws, s, key, map[], Takes).0 == Added(ws, s, key, map[]) && Inv(ws, Added(ws, s, key, map[]))
  {
    UpsertKeepsInvIff(ws, s, key, map[], Takes);
  }

  /**
   * From any exact state: add a key, add the storage key of its row as a key, delete that, and the
   * first row is gone.
   */
  lemma ErasingRunFrom(ws: Widths, s: Docs, first: Key, second: Key)
    requires Inv(ws, s) && DocidOk(s.maxDocid) && DocidOk(s.maxDocid + 1)
    requires first !in s.keyToDocid && second !in s.keyToDocid && first != second && first != ""
               && second == RowKey(s.maxDocid)
    ensures var a := Upsert(ws, s, first, map[], Takes).0;
            && Inv(ws, a)
            && var b := Upsert(ws, a, second, map[], Takes).0;
               && Inv(ws, b) && first in b.keyToDocid
               && var c := Delete(ws, b, second).0;
                  first in c.keyToDocid && c.keyToDocid[first] in Live(c) && first !in Contents(c) && !Inv(ws, c)
  {
    PaddedIsDigits(s.maxDocid, Width());
    AddEmpty(ws, s, first);
    var a := Added(ws, s, first, map[]);
    AddEmpty(ws, a, second);
    ErasedRow(ws, Added(ws, a, second, map[]), second, first);
  }

  /** So in an empty engine with "a" and "0000000000". */
  lemma ErasingRun(ws: Widths, slots: set<Slot>)
    requires SlotsOk(ws, slots)
    ensures var s := EmptyDocs(slots);
            && Inv(ws, s)
            && var a := Upsert(ws, s, "a", map[], Takes).0;
               && Inv(ws, a)
               && var b := Upsert(ws, a, "0000000000", map[], Takes).0;
                  && Inv(ws, b) && "a" in b.keyToDocid
                  && var c := Delete(ws, b, "0000000000").0;
                     "a" in c.keyToDocid && c.keyToDocid["a"] in Live(c) && "a" !in Contents(c) && !Inv(ws, c)
  {
    ZeroKey();
    EmptyInv(ws, slots);
    assert "a"[0] != "0000000000"[0];
    ErasingRunFrom(ws, EmptyDocs(slots), "a", "0000000000");
  }

  /**
   * A refused new document leaves its key pointing at the docid not yet taken. The key is refused
   * until the next new key takes that docid; from then on the two keys share it. The first
   * document's index entries stay under it, so an index stays exact only where both documents have
   * the same values.
   */
  lemma RejectedStoreBreaksKeys(ws: Widths, s: Docs, key: Key, fields: Fields, other: Key, otherFields: Fields,
                                slot: Slot)
    requires Inv(ws, s) && DocidOk(s.maxDocid) && FieldsOk(ws, fields) && FieldsOk(ws, otherFields)
    requires KnownFields(ws, fields) && KnownFields(ws, otherFields) && slot in s.slots
    requires key !in s.keyToDocid && other !in s.keyToDocid && key != other && key != "" && other != ""
    ensures var t := Upsert(ws, s, key, fields, Rejects).0;
            && Writable(ws, t) && (forall again, v :: Upsert(ws, t, key, again, v) == (t, -2))
            && var u := Upsert(ws, t, other, otherFields, Takes).0;
               && Writable(ws, u) && SharedBy(u, key, other, s.maxDocid, NewRow(ws, otherFields))
               && (ExactSlot(u, slot) <==> Project(NewRow(ws, fields), slot) == Project(NewRow(ws, otherFields), slot))
  {
    WrittenStaysWritable(ws, s, UpsertOp(key, fields, Rejects));
    var t := Written(ws, s, UpsertOp(key, fields, Rejects));
    WrittenStaysWritable(ws, t, UpsertOp(other, otherFields, Takes));
    var u := Upsert(ws, t, other, otherFields, Takes).0;
    SharedDocid(ws, s, key, fields, other, otherFields, slot);
    assert u == Added(ws, AddRow(ws, s, key, fields), other, otherFields);
  }

  /** Two keys lead to one live docid, which holds this row. */
  predicate SharedBy(s: Docs, key: Key, other: Key, docid: nat, row: Row) {
    && key != other && key in s.keyToDocid && s.keyToDocid[key] == docid && other in s.keyToDocid
         && s.keyToDocid[other] == docid
    && docid in Live(s) && docid in s.rows && s.rows[docid] == row
  }

  /**
   * With a shared docid, an upsert of the one key is accepted and changes the other's row, and a
   * delete of the one takes the other's document away but leaves its key, which no delete removes
   * any more.
   */
  lemma SharedDocidBreaksBoth(ws: Widths, s: Docs, key: Key, other: Key, docid: nat, row: Row, fields: Fields)
    requires Writable(ws, s) && SharedBy(s, key, other, docid, row)
    ensures var r := Upsert(ws, s, key, fields, Takes);
            r.1 == 0 && other in Contents(r.0) && Contents(r.0)[other] == UpdatedRow(row, fields)
    ensures var t := Delete(ws, s, key).0;
            Delete(ws, s, key).1 == 0 && other in t.keyToDocid && other !in Contents(t) && Writable(ws, t)
                && Delete(ws, t, other) == (t, 0)
  {
  }

  /** A delete of the refused key before the next new key makes that one's document deleted from the start. */
  lemma BornDeleted(ws: Widths, s: Docs, key: Key, fields: Fields, other: Key, otherFields: Fields)
    requires Inv(ws, s) && DocidOk(s.maxDocid) && FieldsOk(ws, fields) && FieldsOk(ws, otherFields)
    requires KnownFields(ws, fields) && KnownFields(ws, otherFields)
    requires key !in s.keyToDocid && other !in s.keyToDocid && key != other && key != "" && other != ""
    ensures var t := Written(ws, Written(ws, s, UpsertOp(key, fields, Rejects)), DeleteOp(key));
            && Writable(ws, t)
            && var r := Upsert(ws, t, other, otherFields, Takes);
               r.1 == 0 && other in r.0.keyToDocid && other !in Contents(r.0)
  {
    WrittenStaysWritable(ws, s, UpsertOp(key, fields, Rejects));
    var leaked := Written(ws, s, UpsertOp(key, fields, Rejects));
    assert leaked == AddRow(ws, s, key, fields);
    WrittenStaysWritable(ws, leaked, DeleteOp(key));
  }

  lemma SharedDocid(ws: Widths, s: Docs, key: Key, fields: Fields, other: Key, otherFields: Fields, slot: Slot)
    requires SlotsOk(ws, s.slots) && slot in s.slots && ExactSlot(s, slot) && s.deleted <= UpTo(s.maxDocid)
    ensures var u := Added(ws, AddRow(ws, s, key, fields), other, otherFields);
            ExactSlot(u, slot) <==> Project(NewRow(ws, fields), slot) == Project(NewRow(ws, otherFields), slot)
  {
    var u := Added(ws, AddRow(ws, s, key, fields), other, otherFields);
    var before, now := Entry(slot, Project(NewRow(ws, fields), slot), s.maxDocid),
        Entry(slot, Project(NewRow(ws, otherFields), slot), s.maxDocid);
    assert before in u.entries && now in u.entries && s.maxDocid !in u.deleted
        && RowAt(u, s.maxDocid) == NewRow(ws, otherFields);
    assert Live(u) == Live(s) + {s.maxDocid};
    if before == now {
      forall d | d in Live(u) ensures Entry(slot, Project(RowAt(u, d), slot), d) in u.entries {
        if d != s.maxDocid { assert Entry(slot, Project(RowAt(s, d), slot), d) in s.entries; }
      }
    }
  }
}
