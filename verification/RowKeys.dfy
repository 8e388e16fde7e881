/**
 * The "table" column family: packed rows under "%010d" of the docid, "_id" strings under
 * "_id:" and the same text. A document's own key can be the same text as one of these, and what one
 * delete takes out of the family is stated here.
 */
module RowKeys {

  type Key = string
  type Row = seq<int>

  function Digit(n: nat): char
    requires n < 10
  {
    '0' + n as char
  }

  /** Decimal digits, zeros in front up to the width. */
  function Padded(n: nat, width: nat): string
    decreases width, n
  {
    if n == 0 && width == 0 then ""
    else Padded(n / 10, if width > 0 then width - 1 else 0) + [Digit(n % 10)]
  }

  function Width(): nat {
    10
  }

  /** utils::ToRowKey. */
  function RowKey(docid: nat): Key {
    Padded(docid, Width())
  }

  /** utils::ToStringFieldKey of the key field. */
  function IdKey(docid: nat): Key {
    "_id:" + RowKey(docid)
  }

  /** The number a digit string stands for. */
  function Number(s: string): int {
    if s == "" then 0 else 10 * Number(s[..|s| - 1]) + (s[|s| - 1] as int - '0' as int)
  }

  lemma {:induction false} PaddedRoundTrip(n: nat, width: nat)
    ensures Number(Padded(n, width)) == n
    decreases width, n
  {
    if n != 0 || width != 0 {
      var init := Padded(n / 10, if width > 0 then width - 1 else 0);
      PaddedRoundTrip(n / 10, if width > 0 then width - 1 else 0);
      assert (init + [Digit(n % 10)])[..|init|] == init;
    }
  }

  lemma {:induction false} PaddedIsDigits(n: nat, width: nat)
    ensures |Padded(n, width)| >= width && forall c :: c in Padded(n, width) ==> '0' <= c <= '9'
    decreases width, n
  {
    if n != 0 || width != 0 { PaddedIsDigits(n / 10, if width > 0 then width - 1 else 0); }
  }

  /** Different docids have different storage keys, and a row's key is no "_id" string's. */
  lemma RowKeysApart(a: nat, b: nat)
    ensures RowKey(a) == RowKey(b) ==> a == b
    ensures IdKey(a) == IdKey(b) ==> a == b
    ensures RowKey(a) != IdKey(b)
  {
    PaddedRoundTrip(a, Width());
    PaddedRoundTrip(b, Width());
    PaddedIsDigits(a, Width());
    assert IdKey(b)[0] == '_';
    assert IdKey(a)[4..] == RowKey(a) && IdKey(b)[4..] == RowKey(b);
    assert RowKey(a)[0] in RowKey(a);
  }

  datatype Cell = Packed(row: Row) | Text(text: Key)

  function StorageKeys(rows: set<nat>, ids: set<nat>): set<Key> {
    (set d | d in rows :: RowKey(d)) + (set d | d in ids :: IdKey(d))
  }

  /** The family holds these rows and these "_id" strings and nothing else. */
  ghost predicate Stores(cells: map<Key, Cell>, rows: map<nat, Row>, ids: map<nat, Key>) {
    && cells.Keys == StorageKeys(rows.Keys, ids.Keys)
    && (forall d {:trigger RowKey(d)} :: d in rows ==> RowKey(d) in cells && cells[RowKey(d)] == Packed(rows[d]))
    && (forall d {:trigger IdKey(d)} :: d in ids ==> IdKey(d) in cells && cells[IdKey(d)] == Text(ids[d]))
  }

  function RowsWithout(rows: map<nat, Row>, key: Key): map<nat, Row> {
    map d | d in rows && RowKey(d) != key :: rows[d]
  }

  function IdsWithout(ids: map<nat, Key>, key: Key): map<nat, Key> {
    map d | d in ids && IdKey(d) != key :: ids[d]
  }

  lemma RowIsStored(cells: map<Key, Cell>, rows: map<nat, Row>, ids: map<nat, Key>, d: nat)
    requires Stores(cells, rows, ids)
    ensures RowKey(d) in cells <==> d in rows
  {
    if RowKey(d) in cells {
      forall e: nat ensures RowKey(e) == RowKey(d) ==> e == d { RowKeysApart(e, d); }
      forall e: nat ensures IdKey(e) != RowKey(d) { RowKeysApart(d, e); }
    }
  }

  lemma AddedKeys(rows: set<nat>, ids: set<nat>, d: nat)
    ensures StorageKeys(rows + {d}, ids) == StorageKeys(rows, ids) + {RowKey(d)}
    ensures StorageKeys(rows, ids + {d}) == StorageKeys(rows, ids) + {IdKey(d)}
  {
  }

  lemma PutKeys<T>(cells: map<T, Cell>, k: T, cell: Cell)
    ensures cells[k := cell].Keys == cells.Keys + {k}
  {
  }

  lemma PutRow<T>(rows: map<nat, T>, d: nat, row: T)
    ensures rows[d := row].Keys == rows.Keys + {d}
  {
  }

  lemma PutRowCells(cells: map<Key, Cell>, rows: map<nat, Row>, ids: map<nat, Key>, d: nat, row: Row, e: nat)
    requires Stores(cells, rows, ids)
    ensures var after := cells[RowKey(d) := Packed(row)];
            && (e in rows[d := row] ==> RowKey(e) in after && after[RowKey(e)] == Packed(rows[d := row][e]))
            && (e in ids ==> IdKey(e) in after && after[IdKey(e)] == Text(ids[e]))
  {
    RowKeysApart(e, d);
    RowKeysApart(d, e);
  }

  lemma PutIdCells(cells: map<Key, Cell>, rows: map<nat, Row>, ids: map<nat, Key>, d: nat, id: Key, e: nat)
    requires Stores(cells, rows, ids)
    ensures var after := cells[IdKey(d) := Text(id)];
            && (e in rows ==> RowKey(e) in after && after[RowKey(e)] == Packed(rows[e]))
            && (e in ids[d := id] ==> IdKey(e) in after && after[IdKey(e)] == Text(ids[d := id][e]))
  {
    RowKeysApart(e, d);
  }

  lemma PutRowRefines(cells: map<Key, Cell>, rows: map<nat, Row>, ids: map<nat, Key>, d: nat, row: Row)
    requires Stores(cells, rows, ids)
    ensures Stores(cells[RowKey(d) := Packed(row)], rows[d := row], ids)
  {
    AddedKeys(rows.Keys, ids.Keys, d);
    PutKeys(cells, RowKey(d), Packed(row));
    PutRow(rows, d, row);
    forall e { PutRowCells(cells, rows, ids, d, row, e); }
  }

  lemma PutIdRefines(cells: map<Key, Cell>, rows: map<nat, Row>, ids: map<nat, Key>, d: nat, id: Key)
    requires Stores(cells, rows, ids)
    ensures Stores(cells[IdKey(d) := Text(id)], rows, ids[d := id])
  {
    AddedKeys(rows.Keys, ids.Keys, d);
    PutKeys(cells, IdKey(d), Text(id));
    PutRow(ids, d, id);
    forall e { PutIdCells(cells, rows, ids, d, id, e); }
  }

  /** Deleting a key takes out the row or "_id" string stored under that text, if there is one. */
  lemma {:induction false} EraseRefines(cells: map<Key, Cell>, rows: map<nat, Row>, ids: map<nat, Key>, key: Key)
    requires Stores(cells, rows, ids)
    ensures Stores(cells - {key}, RowsWithout(rows, key), IdsWithout(ids, key))
  {
    assert StorageKeys(RowsWithout(rows, key).Keys, IdsWithout(ids, key).Keys)
        == StorageKeys(rows.Keys, ids.Keys) - {key};
  }

  lemma EraseOneId(rows: map<nat, Row>, ids: map<nat, Key>, d: nat)
    ensures RowsWithout(rows, IdKey(d)) == rows && IdsWithout(ids, IdKey(d)) == ids - {d}
  {
    forall e: nat ensures RowKey(e) != IdKey(d) && (IdKey(e) == IdKey(d) ==> e == d) { RowKeysApart(e, d); }
  }
}
