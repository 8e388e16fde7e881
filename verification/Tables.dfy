/**
 * Table: the "key_to_docid" column family, and the "table" family with a packed row and an
 * "_id" string per docid.
 */
module Tables {
  import opened KeyLayout
  import opened RowKeys

  predicate RowOk(ws: Widths, row: Row) {
    |row| == |ws| && forall i :: 0 <= i < |ws| ==> InRange(ws[i], row[i])
  }

  /** The values of the slot's fields, in the slot's order. */
  function Project(row: Row, slot: Slot): (vals: seq<int>) {
    seq(|slot|, i requires 0 <= i < |slot| => if slot[i] < |row| then row[slot[i]] else 0)
  }

  lemma ProjectOk(ws: Widths, row: Row, slot: Slot)
    requires RowOk(ws, row) && SlotOk(ws, slot)
    ensures ValuesOk(ws, slot, Project(row, slot))
  {
  }

  predicate RowsOk(ws: Widths, rows: map<nat, Row>) {
    forall d :: d in rows ==> DocidOk(d) && RowOk(ws, rows[d])
  }

  /** The fields a request carries, by field id. Ids the table lacks make CheckDoc fail. */
  type Fields = map<nat, int>

  /** Table::Add: absent numeric fields are zero. */
  function NewRow(ws: Widths, fields: Fields): Row {
    seq(|ws|, i => if i in fields then fields[i] else 0)
  }

  /** Table::Update: absent fields keep their value. */
  function UpdatedRow(row: Row, fields: Fields): Row {
    seq(|row|, i requires 0 <= i < |row| => if i in fields then fields[i] else row[i])
  }

  predicate FieldsOk(ws: Widths, fields: Fields) {
    forall i :: i in fields && i < |ws| ==> InRange(ws[i], fields[i])
  }

  /** The fields of a request whose stored value differs; all of them when there is no row. */
  function Changed(rows: map<nat, Row>, fields: Fields, docid: nat): set<nat> {
    set f | f in fields && (docid in rows && f < |rows[docid]| ==> fields[f] != rows[docid][f])
  }

  class Table {
    const ws: Widths
    var keyToDocid: map<Key, nat>
    var cells: map<Key, Cell>
    /** The rows and "_id" strings the cells stand for. */
    ghost var rows: map<nat, Row>
    ghost var ids: map<nat, Key>

    constructor (ws: Widths)
      ensures Valid() && this.ws == ws && rows == map[] && ids == map[] && keyToDocid == map[]
    {
      this.ws := ws;
      keyToDocid, cells := map[], map[];
      rows, ids := map[], map[];
    }

    ghost predicate Valid()
      reads this
    {
      RowsOk(ws, rows) && Stores(cells, rows, ids)
    }

    /** storage_mgr_->Get of a docid. */
    method Get(docid: nat) returns (ret: int, row: Row)
      requires Valid()
      ensures ret == 0 <==> docid in rows
      ensures docid in rows ==> row == rows[docid]
    {
      RowIsStored(cells, rows, ids, docid);
      if RowKey(docid) !in cells { return -1, []; }
      return 0, cells[RowKey(docid)].row;
    }

    /** GetFieldRawValues: fails for a docid without a row. */
    method GetFieldRawValues(docid: nat, slot: Slot) returns (ret: int, vals: seq<int>)
      requires Valid() && SlotOk(ws, slot)
      ensures ret == 0 <==> docid in rows
      ensures docid in rows ==> vals == Project(rows[docid], slot)
    {
      var row;
      ret, row := Get(docid);
      vals := if ret == 0 then Project(row, slot) else [];
    }

    method GetFieldRawValue(docid: nat, field: nat) returns (ret: int, value: int)
      requires Valid() && field < |ws|
      ensures ret == 0 <==> docid in rows
      ensures docid in rows ==> value == rows[docid][field]
    {
      var row;
      ret, row := Get(docid);
      value := if ret == 0 then row[field] else 0;
    }

    /** storage_mgr_->Add and Update. */
    method PutRow(docid: nat, row: Row)
      requires Valid() && DocidOk(docid) && RowOk(ws, row)
      modifies this`rows, this`cells
      ensures Valid() && rows == old(rows)[docid := row]
    {
      PutRowRefines(cells, rows, ids, docid, row);
      cells, rows := cells[RowKey(docid) := Packed(row)], rows[docid := row];
    }

    /** storage_mgr_->AddString. */
    method PutId(docid: nat, key: Key)
      requires Valid()
      modifies this`ids, this`cells
      ensures Valid() && ids == old(ids)[docid := key]
    {
      PutIdRefines(cells, rows, ids, docid, key);
      cells, ids := cells[IdKey(docid) := Text(key)], ids[docid := key];
    }

    method Add(key: Key, fields: Fields, docid: nat) returns (ret: int)
      requires Valid() && FieldsOk(ws, fields) && DocidOk(docid)
      modifies this
      ensures Valid()
      ensures key == "" ==> ret == -3 && rows == old(rows) && ids == old(ids) && keyToDocid == old(keyToDocid)
      ensures key != "" ==> && ret == 0 && rows == old(rows)[docid := NewRow(ws, fields)]
                            && ids == old(ids)[docid := key] && keyToDocid == old(keyToDocid)[key := docid]
                            && |rows[docid]| == |ws|
                            && forall i :: 0 <= i < |ws| ==> rows[docid][i] == if i in fields then fields[i] else 0
    {
      if key == "" { return -3; }
      keyToDocid := keyToDocid[key := docid];
      PutId(docid, key);
      PutRow(docid, NewRow(ws, fields));
      ret := 0;
    }

    method Update(fields: Fields, docid: nat) returns (ret: int)
      requires Valid() && FieldsOk(ws, fields)
      modifies this`rows, this`cells
      ensures Valid()
      ensures ret == if |fields| == 0 || docid in rows then 0 else -1
      ensures rows == if docid in old(rows) then old(rows)[docid := UpdatedRow(old(rows)[docid], fields)] else old(rows)
      ensures docid in old(rows) ==> && |rows[docid]| == |ws|
                                     && forall i :: 0 <= i < |ws| ==>
                                          rows[docid][i] == if i in fields then fields[i] else old(rows)[docid][i]
    {
      if |fields| == 0 {
        if docid in rows { assert UpdatedRow(rows[docid], fields) == rows[docid]; }
        return 0;
      }
      var row;
      ret, row := Get(docid);
      if ret != 0 { return -1; }
      PutRow(docid, UpdatedRow(row, fields));
    }

    /** CheckFieldIsEqual. */
    method ChangedFields(fields: Fields, docid: nat) returns (changed: set<nat>)
      requires Valid()
      ensures changed == Changed(rows, fields, docid)
    {
      var ret, row := Get(docid);
      changed := set f | f in fields && (ret == 0 && f < |row| ==> fields[f] != row[f]);
    }

    /**
     * Removes the key and the "_id" string. The numeric row stays, because it is stored under the
     * docid; what goes instead is the row or "_id" string stored under the text of the key.
     */
    method Delete(key: Key) returns (ret: int)
      requires Valid()
      modifies this
      ensures Valid() && ret == if key in old(keyToDocid) then 0 else -1
      ensures key !in old(keyToDocid) ==> rows == old(rows) && ids == old(ids) && keyToDocid == old(keyToDocid)
      ensures key in old(keyToDocid) ==> && rows == RowsWithout(old(rows), key) && keyToDocid == old(keyToDocid) - {key}
                                         && ids == IdsWithout(old(ids), key) - {old(keyToDocid)[key]}
    {
      if key !in keyToDocid { return -1; }
      var docid := keyToDocid[key];
      EraseRefines(cells, rows, ids, key);
      cells, rows, ids := cells - {key}, RowsWithout(rows, key), IdsWithout(ids, key);
      EraseRefines(cells, rows, ids, IdKey(docid));
      EraseOneId(rows, ids, docid);
      cells, ids := cells - {IdKey(docid)}, ids - {docid};
      keyToDocid := keyToDocid - {key};
      ret := 0;
    }
  }
}
