/**
 * Engine: the document path over a real table, real index objects and one shared
 * column family. Each method does to these what Documents says it does to the values.
 */
module Engines {
  import opened Bytes
  import opened KeyLayout
  import opened ScalarStore
  import opened ScalarQuery
  import opened RowKeys
  import opened Tables
  import opened Paging
  import opened InvertedIndexes
  import opened BitmapIndexes
  import opened Documents
  import opened ScalarFilter
  import opened DocExport
  import opened Options

  function SlotsOf(indexes: seq<InvertedIndex>): set<Slot> {
    set x | x in indexes :: x.slot
  }

  function BitmapSlots(bitmaps: seq<BitmapIndex>): set<Slot> {
    set b | b in bitmaps :: [b.field]
  }

  lemma SlotsOfSnoc(indexes: seq<InvertedIndex>, i: nat)
    requires i < |indexes|
    ensures SlotsOf(indexes[..i + 1]) == SlotsOf(indexes[..i]) + {indexes[i].slot}
  {
    assert forall x :: x in indexes[..i + 1] <==> x in indexes[..i] || x == indexes[i];
  }

  lemma BitmapSlotsSnoc(bitmaps: seq<BitmapIndex>, i: nat)
    requires i < |bitmaps|
    ensures BitmapSlots(bitmaps[..i + 1]) == BitmapSlots(bitmaps[..i]) + {[bitmaps[i].field]}
  {
    assert forall b :: b in bitmaps[..i + 1] <==> b in bitmaps[..i] || b == bitmaps[i];
  }

  lemma MapsAreOver(ws: Widths, bitmaps: seq<BitmapIndex>, fields: seq<nat>)
    requires |bitmaps| == |fields| && forall i :: 0 <= i < |fields| ==>
               SlotOk(ws, [fields[i]]) && bitmaps[i].field == fields[i]
    ensures forall b :: b in bitmaps ==> b.field < |ws| && SlotOk(ws, [b.field])
  {
    forall b | b in bitmaps ensures b.field < |ws| && SlotOk(ws, [b.field]) {
      var i :| 0 <= i < |bitmaps| && bitmaps[i] == b;
      assert SlotOk(ws, [fields[i]]) && [fields[i]][0] == fields[i];
    }
  }

  /** Adding or dropping one entry of a field changes that field's postings and no other's. */
  lemma PostingsStep(entries: set<Entry>, f: nat, v: int, d: nat, g: nat)
    ensures var e := Entry([f], [v], d);
            && PostingsIn(entries + {e}, g) == PostingsIn(entries, g) + (if f == g then {(v, d)} else {})
            && PostingsIn(entries - {e}, g) == PostingsIn(entries, g) - (if f == g then {(v, d)} else {})
  {
    var e := Entry([f], [v], d);
    assert [f][0] == f && [g][0] == g;
    forall x | x in entries && x != e && x.slot == [f] && |x.vals| == 1 ensures (x.vals[0], x.docid) != (v, d) {
      assert x.vals == [x.vals[0]];
    }
    assert e in entries + {e};
  }

  class Engine {
    const table: Table
    const cf: ColumnFamily
    const indexes: seq<InvertedIndex>
    const bitmaps: seq<BitmapIndex>
    var maxDocid: nat
    var deleteNum: nat
    var bitmap: set<nat>
    /** The entries and BUILDING markers the column family stands for, and the entries in memory. */
    ghost var stored: set<Entry>
    ghost var markers: set<ByteString>
    ghost var held: set<Entry>

    /** The indexes are over this table, and a field has one index, on disk or in memory. */
    ghost predicate Wired() {
      && (forall x :: x in indexes ==> x.table == table && x.cf == cf && SlotOk(table.ws, x.slot))
      && (forall b :: b in bitmaps ==> b.table == table && b.field < |table.ws| && SlotOk(table.ws, [b.field]))
      && (forall i, j :: 0 <= i < j < |bitmaps| ==> bitmaps[i].field != bitmaps[j].field)
      && SlotsOf(indexes) !! BitmapSlots(bitmaps)
    }

    /** The column family stands for the entries of the indexes kept there. */
    ghost predicate StoredOk()
      reads this`stored, this`markers, cf
    {
      && Wired()
      && (forall e :: e in stored ==> e.slot in SlotsOf(indexes))
      && Represents(table.ws, cf.keys, stored, markers)
    }

    ghost predicate BitmapOk(b: BitmapIndex)
      requires b.field < |table.ws|
      reads this`held, b
    {
      && BitmapIndexes.Clean(table.ws[b.field], b.data)
      && BitmapIndexes.PostingsOf(table.ws[b.field], b.data) == PostingsIn(held, b.field)
    }

    /** The bitmap indexes hold the other entries. */
    ghost predicate HeldOk()
      reads this`held, bitmaps
    {
      && Wired()
      && (forall b :: b in bitmaps ==> BitmapOk(b))
      && (forall e :: e in held ==> e.slot in BitmapSlots(bitmaps))
    }

    ghost predicate Valid()
      reads this, table, cf, bitmaps
    {
      table.Valid() && StoredOk() && HeldOk()
    }

    ghost function Slots(): set<Slot> {
      SlotsOf(indexes) + BitmapSlots(bitmaps)
    }

    ghost function Entries(): set<Entry>
      reads this`stored, this`held
    {
      stored + held
    }

    ghost function View(): Docs
      reads this, table
    {
      Docs(table.rows, table.ids, table.keyToDocid, maxDocid, bitmap, deleteNum, Slots(), Entries())
    }

    lemma WiredSlots()
      requires Wired()
      ensures SlotsOk(table.ws, Slots())
    {
    }

    constructor (ws: Widths, slots: seq<Slot>, fields: seq<nat>)
      requires forall i :: 0 <= i < |slots| ==> SlotOk(ws, slots[i])
      requires forall i :: 0 <= i < |fields| ==> SlotOk(ws, [fields[i]]) && [fields[i]] !in slots
      requires forall i, j :: 0 <= i < j < |fields| ==> fields[i] != fields[j]
      ensures Valid() && View() == EmptyDocs((set t | t in slots) + set f | f in fields :: [f]) && table.ws == ws
    {
      var t := new Table(ws);
      var c := new ColumnFamily();
      var stores := CreateIndexes(t, c, slots);
      var maps := CreateBitmaps(t, fields);
      table, cf, indexes, bitmaps := t, c, stores, maps;
      maxDocid, deleteNum, bitmap := 0, 0, {};
      stored, markers, held := {}, {}, {};
      new;
      MapsAreOver(ws, bitmaps, fields);
    }

    static method CreateIndexes(table: Table, cf: ColumnFamily, slots: seq<Slot>) returns (indexes: seq<InvertedIndex>)
      ensures forall x :: x in indexes ==> x.table == table && x.cf == cf && x.slot in slots
      ensures SlotsOf(indexes) == set t | t in slots
    {
      indexes := [];
      for i := 0 to |slots|
        invariant forall x :: x in indexes ==> x.table == table && x.cf == cf && x.slot in slots
        invariant SlotsOf(indexes) == set t | t in slots[..i]
      {
        var index := new InvertedIndex(table, cf, slots[i]);
        ghost var before := indexes;
        indexes := indexes + [index];
        SlotsOfSnoc(indexes, |before|);
        assert indexes[..|before|] == before && indexes[..|before| + 1] == indexes;
        assert forall t :: t in slots[..i + 1] <==> t in slots[..i] || t == slots[i];
      }
      assert slots[..|slots|] == slots;
    }

    static method CreateBitmaps(table: Table, fields: seq<nat>) returns (bitmaps: seq<BitmapIndex>)
      ensures |bitmaps| == |fields| && BitmapSlots(bitmaps) == set f | f in fields :: [f]
      ensures forall i :: 0 <= i < |fields| ==>
                bitmaps[i].table == table && bitmaps[i].field == fields[i] && bitmaps[i].data == map[]
    {
      bitmaps := [];
      for i := 0 to |fields|
        invariant |bitmaps| == i
        invariant forall j :: 0 <= j < i ==>
                    bitmaps[j].table == table && bitmaps[j].field == fields[j] && bitmaps[j].data == map[]
      {
        var b := new BitmapIndex(table, fields[i]);
        bitmaps := bitmaps + [b];
      }
      forall i | 0 <= i < |fields| ensures [fields[i]] in BitmapSlots(bitmaps) {
        assert bitmaps[i] in bitmaps;
      }
    }

    // One index's AddDoc and DeleteDoc, seen as an entry.

    method AddOne(index: InvertedIndex, docid: nat)
      requires StoredOk() && table.Valid() && index in indexes
      modifies cf, this`stored
      ensures StoredOk()
      ensures stored == old(stored) + EntriesAt({index.slot}, table.rows, docid)
    {
      OneEntry(index.slot, table.rows, docid);
      if docid in table.rows {
        ProjectOk(table.ws, table.rows[docid], index.slot);
        WriteRefines(table.ws, cf.keys, stored, markers,
            Entry(index.slot, Project(table.rows[docid], index.slot), docid));
      }
      var _ := index.AddDoc(docid);
      stored := stored + EntriesAt({index.slot}, table.rows, docid);
    }

    method DeleteOne(index: InvertedIndex, docid: nat)
      requires StoredOk() && table.Valid() && index in indexes
      modifies cf, this`stored
      ensures StoredOk()
      ensures stored == old(stored) - EntriesAt({index.slot}, table.rows, docid)
    {
      OneEntry(index.slot, table.rows, docid);
      if docid in table.rows {
        ProjectOk(table.ws, table.rows[docid], index.slot);
        WriteRefines(table.ws, cf.keys, stored, markers,
            Entry(index.slot, Project(table.rows[docid], index.slot), docid));
      }
      var _ := index.DeleteDoc(docid);
      stored := stored - EntriesAt({index.slot}, table.rows, docid);
    }

    method AddHeld(b: BitmapIndex, docid: nat)
      requires HeldOk() && table.Valid() && b in bitmaps
      modifies b, this`held
      ensures HeldOk()
      ensures held == old(held) + EntriesAt({[b.field]}, table.rows, docid)
    {
      OneEntry([b.field], table.rows, docid);
      forall x | x in bitmaps ensures x == b || x.field != b.field { SameField(x, b); }
      var _ := b.AddDoc(docid);
      if docid in table.rows {
        ghost var f, v := b.field, table.rows[docid][b.field];
        assert Project(table.rows[docid], [f]) == [v];
        forall x | x in bitmaps { PostingsStep(held, f, v, docid, x.field); }
      }
      held := held + EntriesAt({[b.field]}, table.rows, docid);
      forall x | x in bitmaps ensures BitmapOk(x) {
        if x != b { assert x.field != b.field; }
      }
    }

    method DeleteHeld(b: BitmapIndex, docid: nat)
      requires HeldOk() && table.Valid() && b in bitmaps
      modifies b, this`held
      ensures HeldOk()
      ensures held == old(held) - EntriesAt({[b.field]}, table.rows, docid)
    {
      OneEntry([b.field], table.rows, docid);
      forall x | x in bitmaps ensures x == b || x.field != b.field { SameField(x, b); }
      var _ := b.DeleteDoc(docid);
      if docid in table.rows {
        ghost var f, v := b.field, table.rows[docid][b.field];
        assert Project(table.rows[docid], [f]) == [v];
        forall x | x in bitmaps { PostingsStep(held, f, v, docid, x.field); }
      }
      held := held - EntriesAt({[b.field]}, table.rows, docid);
      forall x | x in bitmaps ensures BitmapOk(x) {
        if x != b { assert x.field != b.field; }
      }
    }

    lemma SameField(a: BitmapIndex, b: BitmapIndex)
      requires Wired() && a in bitmaps && b in bitmaps
      ensures a == b || a.field != b.field
    {
      var i :| 0 <= i < |bitmaps| && bitmaps[i] == a;
      var j :| 0 <= j < |bitmaps| && bitmaps[j] == b;
    }

    // The two loops of ScalarIndexManager::AddDoc and DeleteDoc, over every index or those that cover the field.

    method IndexStored(docid: nat, field: Option<nat>)
      requires StoredOk() && table.Valid()
      modifies cf, this`stored
      ensures StoredOk()
      ensures stored == old(stored) + EntriesAt(Covering(SlotsOf(indexes), field), table.rows, docid)
    {
      for i := 0 to |indexes|
        invariant StoredOk()
        invariant stored == old(stored) + EntriesAt(Covering(SlotsOf(indexes[..i]), field), table.rows, docid)
      {
        SlotsOfSnoc(indexes, i);
        EntriesStep(SlotsOf(indexes[..i]), indexes[i].slot, field, table.rows, docid, old(stored));
        if field.None? || field.value in indexes[i].slot {
          AddOne(indexes[i], docid);
        }
      }
      assert indexes[..|indexes|] == indexes;
    }

    method UnindexStored(docid: nat, field: Option<nat>)
      requires StoredOk() && table.Valid()
      modifies cf, this`stored
      ensures StoredOk()
      ensures stored == old(stored) - EntriesAt(Covering(SlotsOf(indexes), field), table.rows, docid)
    {
      for i := 0 to |indexes|
        invariant StoredOk()
        invariant stored == old(stored) - EntriesAt(Covering(SlotsOf(indexes[..i]), field), table.rows, docid)
      {
        SlotsOfSnoc(indexes, i);
        EntriesStep(SlotsOf(indexes[..i]), indexes[i].slot, field, table.rows, docid, old(stored));
        if field.None? || field.value in indexes[i].slot {
          DeleteOne(indexes[i], docid);
        }
      }
      assert indexes[..|indexes|] == indexes;
    }

    method IndexHeld(docid: nat, field: Option<nat>)
      requires HeldOk() && table.Valid()
      modifies bitmaps, this`held
      ensures HeldOk()
      ensures held == old(held) + EntriesAt(Covering(BitmapSlots(bitmaps), field), table.rows, docid)
    {
      for i := 0 to |bitmaps|
        invariant HeldOk()
        invariant held == old(held) + EntriesAt(Covering(BitmapSlots(bitmaps[..i]), field), table.rows, docid)
      {
        BitmapSlotsSnoc(bitmaps, i);
        EntriesStep(BitmapSlots(bitmaps[..i]), [bitmaps[i].field], field, table.rows, docid, old(held));
        if field.None? || field.value == bitmaps[i].field {
          AddHeld(bitmaps[i], docid);
        }
      }
      assert bitmaps[..|bitmaps|] == bitmaps;
    }

    method UnindexHeld(docid: nat, field: Option<nat>)
      requires HeldOk() && table.Valid()
      modifies bitmaps, this`held
      ensures HeldOk()
      ensures held == old(held) - EntriesAt(Covering(BitmapSlots(bitmaps), field), table.rows, docid)
    {
      for i := 0 to |bitmaps|
        invariant HeldOk()
        invariant held == old(held) - EntriesAt(Covering(BitmapSlots(bitmaps[..i]), field), table.rows, docid)
      {
        BitmapSlotsSnoc(bitmaps, i);
        EntriesStep(BitmapSlots(bitmaps[..i]), [bitmaps[i].field], field, table.rows, docid, old(held));
        if field.None? || field.value == bitmaps[i].field {
          DeleteHeld(bitmaps[i], docid);
        }
      }
      assert bitmaps[..|bitmaps|] == bitmaps;
    }

    // Without a row to read, neither of these finds anything to add or remove.

    /** ScalarIndexManager::AddDoc: every index, or those that cover the field, get the document's entry. */
    method IndexDoc(docid: nat, field: Option<nat>)
      requires Valid()
      modifies cf, this`stored, this`held, bitmaps
      ensures Valid()
      ensures Entries() == old(Entries()) + EntriesAt(Covering(Slots(), field), table.rows, docid)
    {
      EntriesBoth(SlotsOf(indexes), BitmapSlots(bitmaps), field, table.rows, docid);
      IndexStored(docid, field);
      IndexHeld(docid, field);
    }

    /** ScalarIndexManager::DeleteDoc. */
    method UnindexDoc(docid: nat, field: Option<nat>)
      requires Valid()
      modifies cf, this`stored, this`held, bitmaps
      ensures Valid()
      ensures Entries() == old(Entries()) - EntriesAt(Covering(Slots(), field), table.rows, docid)
    {
      EntriesBoth(SlotsOf(indexes), BitmapSlots(bitmaps), field, table.rows, docid);
      UnindexStored(docid, field);
      UnindexHeld(docid, field);
    }

    /** The first loop of Engine::Update. */
    method UnindexFields(docid: nat, changed: set<nat>)
      requires Valid()
      modifies cf, this`stored, this`held, bitmaps
      ensures Valid()
      ensures Entries() == old(Entries()) - EntriesAt(CoveringAny(Slots(), changed), table.rows, docid)
    {
      var todo := changed;
      assert CoveringAny(Slots(), {}) == {};
      while todo != {}
        invariant todo <= changed && Valid()
        invariant Entries() == old(Entries()) - EntriesAt(CoveringAny(Slots(), changed - todo), table.rows, docid)
        decreases |todo|
      {
        var f :| f in todo;
        UnindexDoc(docid, Some(f));
        EntriesAnyStep(Slots(), changed, todo, f, table.rows, docid, old(Entries()));
        todo := todo - {f};
      }
      assert changed - todo == changed;
    }

    /** The second loop of Engine::Update. */
    method IndexFields(docid: nat, changed: set<nat>)
      requires Valid()
      modifies cf, this`stored, this`held, bitmaps
      ensures Valid()
      ensures Entries() == old(Entries()) + EntriesAt(CoveringAny(Slots(), changed), table.rows, docid)
    {
      var todo := changed;
      assert CoveringAny(Slots(), {}) == {};
      while todo != {}
        invariant todo <= changed && Valid()
        invariant Entries() == old(Entries()) + EntriesAt(CoveringAny(Slots(), changed - todo), table.rows, docid)
        decreases |todo|
      {
        var f :| f in todo;
        IndexDoc(docid, Some(f));
        EntriesAnyStep(Slots(), changed, todo, f, table.rows, docid, old(Entries()));
        todo := todo - {f};
      }
      assert changed - todo == changed;
    }

    /** Unindex under every changed field, then write the row. */
    method UnindexAndWrite(docid: nat, fields: Fields, changed: set<nat>) returns (ret: int)
      requires Valid() && FieldsOk(table.ws, fields)
      modifies table`rows, table`cells, cf, this`stored, this`held, bitmaps
      ensures Valid() && ret == if |fields| == 0 || docid in old(table.rows) then 0 else -1
      ensures table.rows == Rewrote(old(table.rows), docid, fields)
      ensures Entries() == old(Entries()) - EntriesAt(CoveringAny(Slots(), changed), old(table.rows), docid)
    {
      UnindexFields(docid, changed);
      ret := table.Update(fields, docid);
    }

    /** Then index under every changed field. */
    method Rewrite(docid: nat, fields: Fields, changed: set<nat>) returns (ret: int)
      requires Valid() && FieldsOk(table.ws, fields)
      modifies table`rows, table`cells, cf, this`stored, this`held, bitmaps
      ensures Valid() && ret == if |fields| == 0 || docid in old(table.rows) then 0 else -1
      ensures table.rows == Rewrote(old(table.rows), docid, fields)
      ensures Entries() == Reindexed(old(Entries()), CoveringAny(Slots(), changed), old(table.rows), table.rows,
                                     docid, ret == 0)
    {
      ret := UnindexAndWrite(docid, fields, changed);
      if ret == 0 { IndexFields(docid, changed); }
    }

    method Update(docid: nat, fields: Fields, v: Vectors) returns (ret: int)
      requires Valid() && FieldsOk(table.ws, fields)
      modifies table`rows, table`cells, cf, this`stored, this`held, bitmaps
      ensures Valid()
      ensures ret == if v.Rejects? || (docid !in old(table.rows) && |fields| > 0) then -1 else Code(v)
      ensures View() == if v.Rejects? then old(View()) else UpdatedOrSame(table.ws, old(View()), docid, fields)
    {
      if v.Rejects? { return -1; }
      ghost var s, wrote := View(), |fields| == 0 || docid in table.rows;
      WiredSlots();
      assert docid in s.rows ==> |s.rows[docid]| == |table.ws|;
      ReindexedIsUpdate(table.ws, s, docid, fields, Changed(s.rows, fields, docid), wrote);
      ret := RewriteChanged(docid, fields);
      if ret != 0 { return -1; }
      ret := Code(v);
    }

    method RewriteChanged(docid: nat, fields: Fields) returns (ret: int)
      requires Valid() && FieldsOk(table.ws, fields)
      modifies table`rows, table`cells, cf, this`stored, this`held, bitmaps
      ensures Valid() && ret == if |fields| == 0 || docid in old(table.rows) then 0 else -1
      ensures table.rows == Rewrote(old(table.rows), docid, fields)
      ensures Entries() == Reindexed(old(Entries()), CoveringAny(Slots(), Changed(old(table.rows), fields, docid)),
                                     old(table.rows), table.rows, docid, ret == 0)
    {
      var changed := table.ChangedFields(fields, docid);
      ret := Rewrite(docid, fields, changed);
    }

    /** The document path of AddOrUpdate: see Documents.Upsert for what each return code means. */
    method AddOrUpdate(key: Key, fields: Fields, v: Vectors) returns (ret: int)
      requires Valid() && FieldsOk(table.ws, fields) && DocidOk(maxDocid)
      modifies this`maxDocid, this`stored, this`held, table, cf, bitmaps
      ensures Valid()
      ensures (View(), ret) == Upsert(table.ws, old(View()), key, fields, v)
    {
      if key in table.keyToDocid && table.keyToDocid[key] < maxDocid {
        ret := Update(table.keyToDocid[key], fields, v);
        return if ret != 0 then -1 else 0;
      } else if key in table.keyToDocid {
        return -2;
      }
      if exists f :: f in fields && f >= |table.ws| { return -3; }
      ret := AddNew(key, fields, v);
    }

    /** Table::Add, then index the row under the docid to be taken. */
    method AddIndexed(key: Key, fields: Fields) returns (ret: int)
      requires Valid() && FieldsOk(table.ws, fields) && DocidOk(maxDocid)
      modifies this`stored, this`held, table, cf, bitmaps
      ensures Valid() && (ret == 0 <==> key != "")
      ensures View() == if key == "" then old(View()) else AddRow(table.ws, old(View()), key, fields)
    {
      ret := table.Add(key, fields, maxDocid);
      if ret != 0 { return; }
      IndexDoc(maxDocid, None);
      assert Covering(Slots(), None) == Slots();
    }

    /** Add and index, store the vectors, then take the docid. */
    method AddNew(key: Key, fields: Fields, v: Vectors) returns (ret: int)
      requires Valid() && FieldsOk(table.ws, fields) && DocidOk(maxDocid)
      modifies this`maxDocid, this`stored, this`held, table, cf, bitmaps
      ensures Valid()
      ensures key == "" ==> ret == -4 && View() == old(View())
      ensures key != "" && v.Rejects? ==> ret == -5 && View() == AddRow(table.ws, old(View()), key, fields)
      ensures key != "" && !v.Rejects? ==> ret == Code(v) && View() == Added(table.ws, old(View()), key, fields)
    {
      ret := AddIndexed(key, fields);
      if ret != 0 { return -4; }
      if v.Rejects? { return -5; }
      maxDocid := maxDocid + 1;
      ret := Code(v);
    }

    method Delete(key: Key, v: Vectors) returns (ret: int)
      requires Valid()
      modifies this`deleteNum, this`bitmap, this`stored, this`held, table, cf, bitmaps
      ensures Valid()
      ensures var r := Documents.Delete(table.ws, old(View()), key);
              View() == r.0 && ret == if r.0 == old(View()) then r.1 else Code(v)
    {
      if key !in table.keyToDocid { return -1; }
      var docid := table.keyToDocid[key];
      if docid in bitmap { return 0; }
      MarkDeleted(docid);
      var _ := table.Delete(key);
      ret := Code(v);
    }

    /** Set the bit, count it and unindex the document. */
    method MarkDeleted(docid: nat)
      requires Valid()
      modifies this`deleteNum, this`bitmap, this`stored, this`held, cf, bitmaps
      ensures Valid() && bitmap == old(bitmap) + {docid} && deleteNum == old(deleteNum) + 1
      ensures Entries() == old(Entries()) - EntriesAt(Slots(), table.rows, docid)
    {
      bitmap := bitmap + {docid};
      deleteNum := deleteNum + 1;
      UnindexDoc(docid, None);
      assert Covering(Slots(), None) == Slots();
    }

    method GetDoc(docid: int, next: bool) returns (found: int)
      requires Valid()
      ensures !next ==> found == if docid >= 0 && docid in Live(View()) then docid else -1
      ensures next && docid >= -1 ==> found == NextLive(Live(View()), maxDocid, docid + 1)
      ensures next && docid < -1 ==> found == -1
    {
      found := DocExport.GetDoc(maxDocid, bitmap, docid, next);
    }

    /**
     * A filter on a field whose inverted index is exact, answered from RocksDB keys: the query's
     * postings, cut by offset and limit; uncut and without deleted docids, the scan of that column.
     */
    method Filter(index: InvertedIndex, fi: FilterInfo, offset: int, limit: int) returns (result: set<nat>)
      requires Valid() && DocsOk(table.ws, View()) && index in indexes && |index.slot| == 1
                 && ExactSlot(View(), index.slot)
      requires Dispatch(fi).Some? ==> QueryOk(table.ws[index.slot[0]], Dispatch(fi).value)
      ensures forall d :: d in table.rows ==> index.slot[0] < |table.rows[d]|
      ensures Dispatch(fi).None? ==> result == {}
      ensures Dispatch(fi).Some? ==>
                ScanAnswer(FieldPostings(View(), index.slot[0]), table.ws[index.slot[0]], maxDocid, Dispatch(fi).value,
                    offset, limit, result)
      ensures Dispatch(fi).Some? && NoWrap(table.ws[index.slot[0]], Dispatch(fi).value) && offset == 0 == limit ==>
                result - bitmap == TableScan(Column(View(), index.slot[0]), bitmap, Dispatch(fi).value)
    {
      ghost var f := index.slot[0];
      assert index.slot == [f];
      StoredPostings(table.ws, cf.keys, stored, markers, f);
      assert FieldPostings(View(), f) == PostingsIn(stored, f);
      ExactFieldAnswers(table.ws, View(), f);
      result := FilterInverted(index, fi, maxDocid, offset, limit, Column(View(), f), bitmap);
    }

    /** The same filter on a field whose bitmap index is exact, answered from memory. */
    method FilterHeld(b: BitmapIndex, fi: FilterInfo, offset: int, limit: int) returns (result: RangeResult)
      requires Valid() && DocsOk(table.ws, View()) && b in bitmaps && ExactSlot(View(), [b.field])
      requires Dispatch(fi).Some? ==> b.field < |table.ws| && QueryOk(table.ws[b.field], Dispatch(fi).value)
      ensures forall d :: d in table.rows ==> b.field < |table.rows[d]|
      ensures Dispatch(fi).None? ==> result == Answer({})
      ensures fi.lower.None? || fi.upper.None? || fi.lower.value <= fi.upper.value ==> result.Answer?
      ensures Dispatch(fi).Some? && result.Answer? ==>
                result.docids
                    == PageOf(IndexAnswer(FieldPostings(View(), b.field), maxDocid, Dispatch(fi).value), offset, limit)
      ensures Dispatch(fi).Some? && result.Answer? && offset == 0 == limit ==>
                result.docids - bitmap == TableScan(Column(View(), b.field), bitmap, Dispatch(fi).value)
    {
      assert [b.field] in BitmapSlots(bitmaps);
      assert FieldPostings(View(), b.field) == PostingsIn(held, b.field);
      ExactFieldAnswers(table.ws, View(), b.field);
      result := FilterBitmap(b, fi, maxDocid, offset, limit, Column(View(), b.field), bitmap);
    }

    /** One write. */
    method Apply(op: Op)
      requires Valid() && OpOk(table.ws, View(), op)
      modifies this`maxDocid, this`deleteNum, this`bitmap, this`stored, this`held, table, cf, bitmaps
      ensures Valid() && View() == Written(table.ws, old(View()), op)
    {
      match op
      case UpsertOp(key, fields, v) => var _ := AddOrUpdate(key, fields, v);
      case DeleteOp(key) => var _ := Delete(key, Takes);
    }

    /** Any number of writes, none of which breaks the state, keeps it exact. */
    method Run(ops: seq<Op>)
      requires Valid() && Inv(table.ws, View()) && OpsOk(table.ws, View(), ops)
      modifies this`maxDocid, this`deleteNum, this`bitmap, this`stored, this`held, table, cf, bitmaps
      ensures Valid() && Inv(table.ws, View()) && View() == WriteAll(table.ws, old(View()), ops)
      decreases |ops|
    {
      if ops != [] {
        StepKeepsInvIff(table.ws, View(), ops[0]);
        Apply(ops[0]);
        Run(ops[1..]);
      }
    }

    /** After any such run a filter on an indexed field is the scan of that column. */
    method RunThenFilter(ops: seq<Op>, index: InvertedIndex, fi: FilterInfo) returns (result: set<nat>)
      requires Valid() && Inv(table.ws, View()) && OpsOk(table.ws, View(), ops) && index in indexes && |index.slot| == 1
      requires Dispatch(fi).Some? && QueryOk(table.ws[index.slot[0]], Dispatch(fi).value)
      requires NoWrap(table.ws[index.slot[0]], Dispatch(fi).value)
      modifies this`maxDocid, this`deleteNum, this`bitmap, this`stored, this`held, table, cf, bitmaps
      ensures View() == WriteAll(table.ws, old(View()), ops)
      ensures forall d :: d in table.rows ==> index.slot[0] < |table.rows[d]|
      ensures result - bitmap == TableScan(Column(View(), index.slot[0]), bitmap, Dispatch(fi).value)
    {
      Run(ops);
      assert index.slot in Slots();
      result := Filter(index, fi, 0, 0);
    }

    method RunThenFilterHeld(ops: seq<Op>, b: BitmapIndex, fi: FilterInfo) returns (result: RangeResult)
      requires Valid() && Inv(table.ws, View()) && OpsOk(table.ws, View(), ops) && b in bitmaps && b.field < |table.ws|
      requires Dispatch(fi).Some? && QueryOk(table.ws[b.field], Dispatch(fi).value)
      modifies this`maxDocid, this`deleteNum, this`bitmap, this`stored, this`held, table, cf, bitmaps
      ensures View() == WriteAll(table.ws, old(View()), ops)
      ensures forall d :: d in table.rows ==> b.field < |table.rows[d]|
      ensures result.Answer? ==>
                result.docids - bitmap == TableScan(Column(View(), b.field), bitmap, Dispatch(fi).value)
    {
      Run(ops);
      assert [b.field] in Slots();
      result := FilterHeld(b, fi, 0, 0);
    }

    /** Every live document has a row, and every row a docid that was taken. */
    ghost predicate RowsBetween()
      reads this, table
    {
      Live(View()) <= table.rows.Keys <= UpTo(maxDocid)
    }

    /** RebuildBitmapIndexLocked: the index is read back from the rows, those of deleted docids included. */
    method Rebuild(b: BitmapIndex)
      requires HeldOk() && table.Valid() && b in bitmaps && RowsBetween()
      modifies b, this`held
      ensures HeldOk()
      ensures held == Replaced(old(held), RowEntries(table.rows, b.field), b.field)
    {
      ghost var f, before := b.field, held;
      assert [f] in BitmapSlots(bitmaps);
      forall x | x in bitmaps ensures x == b || x.field != f { SameField(x, b); }
      b.Init(maxDocid);
      assert (set d | d in table.rows && d < maxDocid :: (table.rows[d][f], d))
          == set d | d in table.rows :: (table.rows[d][f], d);
      held := Replaced(before, RowEntries(table.rows, f), f);
      RowPostings(table.ws, table.rows, f);
      forall x | x in bitmaps { ReplacedPostings(before, RowEntries(table.rows, f), f, x.field); }
    }

    ghost predicate RereadUpTo(i: nat)
      requires i <= |bitmaps|
      reads this`held, table
    {
      forall j :: 0 <= j < i ==> Reread(table.rows, held, bitmaps[j].field)
    }

    method RebuildNext(i: nat)
      requires HeldOk() && table.Valid() && i < |bitmaps| && RowsBetween() && RereadUpTo(i)
      modifies bitmaps[i], this`held
      ensures HeldOk() && RereadUpTo(i + 1)
    {
      ghost var before := held;
      Rebuild(bitmaps[i]);
      forall j | 0 <= j <= i ensures Reread(table.rows, held, bitmaps[j].field) {
        RereadStep(table.rows, before, bitmaps[i].field, bitmaps[j].field);
      }
    }

    method RebuildEach()
      requires HeldOk() && table.Valid() && RowsBetween()
      modifies bitmaps, this`held
      ensures HeldOk() && RereadUpTo(|bitmaps|)
    {
      for i := 0 to |bitmaps|
        invariant HeldOk() && RereadUpTo(i)
      {
        RebuildNext(i);
      }
    }

    /** RebuildAllBitmapIndexes, on load: every bitmap index is exact afterwards, every other index as it was. */
    method RebuildAll()
      requires Valid() && RowsBetween()
      modifies bitmaps, this`held
      ensures Valid()
      ensures forall b :: b in bitmaps ==> ExactSlot(View(), [b.field])
      ensures forall t :: t in SlotsOf(indexes) ==> (ExactSlot(View(), t) <==> ExactSlot(old(View()), t))
    {
      ghost var before := View();
      RebuildEach();
      forall b | b in bitmaps ensures ExactSlot(View(), [b.field]) {
        assert [b.field] in BitmapSlots(bitmaps);
        RereadIsExact(View(), held, b.field);
      }
      forall t | t in SlotsOf(indexes) ensures ExactSlot(View(), t) <==> ExactSlot(before, t) {
        SameSlotIsExact(before, View(), t);
      }
    }
  }

  function RowEntries(rows: map<nat, Row>, f: nat): set<Entry> {
    set d | d in rows :: Entry([f], Project(rows[d], [f]), d)
  }

  function Replaced(entries: set<Entry>, rebuilt: set<Entry>, f: nat): set<Entry> {
    (set e | e in entries && e.slot != [f]) + rebuilt
  }

  /** The field's entries are those of the rows. */
  ghost predicate Reread(rows: map<nat, Row>, held: set<Entry>, f: nat) {
    forall e: Entry :: e.slot == [f] ==> (e in held <==> e in RowEntries(rows, f))
  }

  lemma RereadStep(rows: map<nat, Row>, before: set<Entry>, f: nat, g: nat)
    requires f == g || Reread(rows, before, g)
    ensures Reread(rows, Replaced(before, RowEntries(rows, f), f), g)
  {
    assert [f][0] == f && [g][0] == g;
  }

  lemma RereadIsExact(s: Docs, held: set<Entry>, f: nat)
    requires Reread(s.rows, held, f) && Live(s) <= s.rows.Keys <= UpTo(s.maxDocid)
    requires forall e :: e in s.entries && e.slot == [f] <==> e in held && e.slot == [f]
    ensures ExactSlot(s, [f])
  {
    forall d | d in Live(s) ensures Entry([f], Project(RowAt(s, d), [f]), d) in s.entries {
      assert d in s.rows;
      assert Entry([f], Project(s.rows[d], [f]), d) in RowEntries(s.rows, f);
    }
    forall e | e in s.entries && e.slot == [f] && e.docid !in s.deleted
      ensures e.docid < s.maxDocid && e.vals == Project(RowAt(s, e.docid), [f])
    {
      assert e in RowEntries(s.rows, f);
      assert e.docid in s.rows.Keys;
    }
  }

  lemma ReplacedPostings(before: set<Entry>, rebuilt: set<Entry>, f: nat, g: nat)
    requires forall e :: e in rebuilt ==> e.slot == [f]
    ensures PostingsIn(Replaced(before, rebuilt, f), g) == if f == g then PostingsIn(rebuilt, f)
              else PostingsIn(before, g)
  {
    assert [f][0] == f && [g][0] == g;
  }

  lemma RowPostings(ws: Widths, rows: map<nat, Row>, f: nat)
    requires RowsOk(ws, rows) && f < |ws|
    ensures PostingsIn(RowEntries(rows, f), f) == set d | d in rows :: (rows[d][f], d)
  {
    assert [f][0] == f;
    forall d | d in rows ensures (rows[d][f], d) in PostingsIn(RowEntries(rows, f), f) {
      var e := Entry([f], Project(rows[d], [f]), d);
      assert e in RowEntries(rows, f) && e.vals[0] == rows[d][f];
    }
  }

  lemma SameSlotIsExact(s: Docs, t: Docs, slot: Slot)
    requires t == s.(entries := t.entries) && SameSlot(s, t, slot)
    ensures ExactSlot(t, slot) <==> ExactSlot(s, slot)
  {
    assert Live(s) == Live(t);
    assert forall d :: RowAt(s, d) == RowAt(t, d);
  }

  /** The keys under a field's header are that field's entries. */
  lemma StoredPostings(ws: Widths, keys: set<ByteString>, entries: set<Entry>, markers: set<ByteString>, f: nat)
    requires Represents(ws, keys, entries, markers) && f < |ws|
    ensures FieldClean(ws, keys, f)
    ensures InvertedIndexes.PostingsOf(ws, keys, f) == PostingsIn(entries, f)
  {
    RepresentedIsClean(ws, keys, entries, markers, f);
    var ps := InvertedIndexes.PostingsOf(ws, keys, f);
    forall v, d: nat ensures (v, d) in ps <==>
        exists e :: e in entries && e.slot == [f] && |e.vals| == 1 && (e.vals[0], e.docid) == (v, d) {
      if (v, d) in ps {
        EntryOfPosting(ws, keys, entries, markers, f, v, d);
      }
      if exists e :: e in entries && e.slot == [f] && |e.vals| == 1 && (e.vals[0], e.docid) == (v, d) {
        var e :| e in entries && e.slot == [f] && |e.vals| == 1 && (e.vals[0], e.docid) == (v, d);
        assert EntryKey(ws, e) in keys && e.vals == [v];
        assert Posted(ws, keys, f, v, d);
      }
    }
  }

  lemma EntryOfPosting(ws: Widths, keys: set<ByteString>, entries: set<Entry>, markers: set<ByteString>, f: nat,
                       v: int, d: nat)
    requires Represents(ws, keys, entries, markers) && f < |ws| && Posted(ws, keys, f, v, d)
    ensures Entry([f], [v], d) in entries
  {
    var k := IndexKey(ws, [f], [v], d);
    forall m | m in markers ensures MarkerKey(m) != k {
      MarkerIsNoEntry(ws, Entry([f], [v], d), m);
    }
    var e :| e in entries && EntryOk(ws, e) && EntryKey(ws, e) == k;
    IndexKeyInjective(ws, e.slot, e.vals, e.docid, [f], [v], d);
  }

  function Covering(slots: set<Slot>, field: Option<nat>): set<Slot> {
    set t | t in slots && (field.None? || field.value in t)
  }

  function CoveringAny(slots: set<Slot>, fields: set<nat>): set<Slot> {
    set t | t in slots && exists f :: f in fields && f in t
  }

  lemma CoveringStep(slots: set<Slot>, t: Slot, field: Option<nat>, row: Row, docid: nat)
    ensures DocEntries(Covering(slots + {t}, field), row, docid)
            == DocEntries(Covering(slots, field), row, docid)
               + (if field.None? || field.value in t then {Entry(t, Project(row, t), docid)} else {})
  {
    assert Covering(slots + {t}, field)
        == Covering(slots, field) + (if field.None? || field.value in t then {t} else {});
  }

  lemma OneEntry(t: Slot, rows: map<nat, Row>, docid: nat)
    ensures EntriesAt({t}, rows, docid) == if docid in rows then {Entry(t, Project(rows[docid], t), docid)} else {}
  {
  }

  /** One more index, added to or taken from the entries there were. */
  lemma EntriesStep(slots: set<Slot>, t: Slot, field: Option<nat>, rows: map<nat, Row>, docid: nat, base: set<Entry>)
    ensures var one := if field.None? || field.value in t then EntriesAt({t}, rows, docid) else {};
            && base + EntriesAt(Covering(slots + {t}, field), rows, docid)
                 == base + EntriesAt(Covering(slots, field), rows, docid) + one
            && base - EntriesAt(Covering(slots + {t}, field), rows, docid)
                 == base - EntriesAt(Covering(slots, field), rows, docid) - one
  {
    if docid in rows {
      CoveringStep(slots, t, field, rows[docid], docid);
      OneEntry(t, rows, docid);
    }
  }

  lemma EntriesBoth(a: set<Slot>, b: set<Slot>, field: Option<nat>, rows: map<nat, Row>, docid: nat)
    ensures EntriesAt(Covering(a + b, field), rows, docid)
            == EntriesAt(Covering(a, field), rows, docid) + EntriesAt(Covering(b, field), rows, docid)
  {
    assert Covering(a + b, field) == Covering(a, field) + Covering(b, field);
  }

  lemma EntriesAnyStep(slots: set<Slot>, changed: set<nat>, todo: set<nat>, f: nat, rows: map<nat, Row>, docid: nat,
                       base: set<Entry>)
    requires todo <= changed && f in todo
    ensures var before, after := CoveringAny(slots, changed - todo), CoveringAny(slots, changed - (todo - {f}));
            var one := EntriesAt(Covering(slots, Some(f)), rows, docid);
            && base + EntriesAt(after, rows, docid) == base + EntriesAt(before, rows, docid) + one
            && base - EntriesAt(after, rows, docid) == base - EntriesAt(before, rows, docid) - one
  {
    if docid in rows { CoveringAnyStep(slots, changed, todo, f, rows[docid], docid); }
  }

  function Rewrote(rows: map<nat, Row>, docid: nat, fields: Fields): map<nat, Row> {
    if docid in rows then rows[docid := UpdatedRow(rows[docid], fields)] else rows
  }

  /** What the two loops do to the entries; the second one only runs after a row write that went well. */
  function Reindexed(entries: set<Entry>, touched: set<Slot>, before: map<nat, Row>, after: map<nat, Row>, docid: nat,
                     wrote: bool): set<Entry> {
    var left := entries - EntriesAt(touched, before, docid);
    if wrote then left + EntriesAt(touched, after, docid) else left
  }

  /** The update on values, if there is a row to update. */
  function UpdatedOrSame(ws: Widths, s: Docs, docid: nat, fields: Fields): Docs {
    if docid in s.rows then Documents.Update(ws, s, docid, fields) else s
  }

  lemma ReindexedIsUpdate(ws: Widths, s: Docs, docid: nat, fields: Fields, changed: set<nat>, wrote: bool)
    requires SlotsOk(ws, s.slots) && (docid in s.rows ==> wrote && |s.rows[docid]| == |ws|)
    requires changed == Changed(s.rows, fields, docid)
    ensures var rows := Rewrote(s.rows, docid, fields);
            var t := s.(rows := rows,
                entries := Reindexed(s.entries, CoveringAny(s.slots, changed), s.rows, rows, docid, wrote));
            t == UpdatedOrSame(ws, s, docid, fields)
  {
    if docid in s.rows {
      TouchedIsCovering(ws, s.slots, s.rows[docid], fields, changed);
    } else {
      assert Reindexed(s.entries, CoveringAny(s.slots, changed), s.rows, s.rows, docid, wrote) == s.entries;
    }
  }

  lemma CoveringAnyStep(slots: set<Slot>, changed: set<nat>, todo: set<nat>, f: nat, row: Row, docid: nat)
    requires todo <= changed && f in todo
    ensures DocEntries(CoveringAny(slots, changed - (todo - {f})), row, docid)
            == DocEntries(CoveringAny(slots, changed - todo), row, docid)
                + DocEntries(Covering(slots, Some(f)), row, docid)
  {
    var done, next := changed - todo, changed - (todo - {f});
    assert next == done + {f};
    forall t | t in slots ensures t in CoveringAny(slots, next) <==>
        t in CoveringAny(slots, done) || t in Covering(slots, Some(f)) {
      if t in CoveringAny(slots, done) {
        var g :| g in done && g in t;
        assert g in next;
      }
    }
    assert CoveringAny(slots, next) == CoveringAny(slots, done) + Covering(slots, Some(f));
  }

  /** An index is touched exactly when a changed field is among its fields. */
  lemma TouchedIsCovering(ws: Widths, slots: set<Slot>, row: Row, fields: Fields, changed: set<nat>)
    requires SlotsOk(ws, slots) && |row| == |ws|
    requires changed == set f | f in fields && (f < |row| ==> fields[f] != row[f])
    ensures TouchedSlots(slots, row, fields) == CoveringAny(slots, changed)
  {
    forall t | t in slots ensures Touched(t, row, fields) <==> exists f :: f in changed && f in t {
      if Touched(t, row, fields) {
        var i :| 0 <= i < |t| && t[i] < |row| && t[i] in fields && fields[t[i]] != row[t[i]];
        assert t[i] in changed;
      }
    }
  }
}
