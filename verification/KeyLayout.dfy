/**
 * The keys of the "scalar" column family: inverted-index keys, composite-index
 * keys and BUILDING markers share one ordered byte space, told apart by prefix.
 */
module KeyLayout {
  import opened Bytes

  const SEPARATOR: Byte := 0x5F
  const MARKER_PREFIX: ByteString := [0xFE, 0x5F, 0x5F, 0x69, 0x64, 0x78, 0x73, 0x74, 0x61, 0x74, 0x65, 0x5F, 0x5F]

  /**
   * Byte widths of the table's fields (INT is 4, LONG is 8). The field count
   * keeps the first byte of a big-endian field id below the separator.
   */
  type Widths = ws: seq<nat> | |ws| <= 0x5F00_0000 && forall i :: 0 <= i < |ws| ==> ws[i] == 4 || ws[i] == 8
    witness []

  /** The ordered fields an index covers: one for an inverted index, more for a composite one. */
  type Slot = seq<nat>

  predicate SlotOk(ws: Widths, slot: Slot) {
    |slot| >= 1 && forall i :: 0 <= i < |slot| ==> slot[i] < |ws|
  }

  function Half(n: nat): (h: int)
    requires n > 0
    ensures Pow256(n) == 2 * h && h > 0
  {
    128 * Pow256(n - 1)
  }

  /** v is a value of the n-byte signed integer type. */
  predicate InRange(n: nat, v: int)
    requires n > 0
  {
    -Half(n) <= v < Half(n)
  }

  predicate ValuesOk(ws: Widths, slot: Slot, vals: seq<int>)
    requires SlotOk(ws, slot)
  {
    |vals| == |slot| && forall i :: 0 <= i < |slot| ==> InRange(ws[slot[i]], vals[i])
  }

  predicate DocidOk(d: int) {
    0 <= d < Half(8)
  }

  /** Int32ToSortableStr / Int64ToSortableStr: flip the sign bit, then big-endian. */
  function Sortable(n: nat, v: int): (b: ByteString)
    requires n > 0 && InRange(n, v)
    ensures |b| == n
  {
    BigEndian(n, v + Half(n))
  }

  /** MinSortableValue and MaxSortableValue, byte by byte. */
  function MinSortable(n: nat): ByteString { seq(n, _ => 0 as Byte) }
  function MaxSortable(n: nat): ByteString { seq(n, _ => 255 as Byte) }

  lemma SortableOrder(n: nat, u: int, v: int)
    requires n > 0 && InRange(n, u) && InRange(n, v)
    ensures Less(Sortable(n, u), Sortable(n, v)) <==> u < v
    ensures Sortable(n, u) == Sortable(n, v) <==> u == v
  {
    BigEndianOrder(n, u + Half(n), v + Half(n));
  }

  lemma SortableExtremes(n: nat)
    requires n > 0
    ensures MinSortable(n) == Sortable(n, -Half(n))
    ensures MaxSortable(n) == Sortable(n, Half(n) - 1)
  {
    BigEndianExtremes(n);
  }

  /** ToRowKey(field id): four bytes. */
  function FieldKey(f: nat): (b: ByteString)
    requires f < 0x5F00_0000
    ensures |b| == 4
  {
    FourBytes();
    BigEndian(4, f)
  }

  lemma FourBytes()
    ensures Pow256(4) == 0x1_0000_0000
  {
    assert Pow256(1) == 256 && Pow256(2) == 0x1_0000 && Pow256(3) == 0x100_0000;
  }

  lemma FieldKeyFirstByte(f: nat)
    requires f < 0x5F00_0000
    ensures FieldKey(f)[0] < SEPARATOR
  {
    FourBytes();
    var q := f / 256 / 256 / 256;
    assert q < 0x5F;
    assert BigEndian(1, q) == [q];
    assert BigEndian(2, f / 256 / 256) == BigEndian(1, q) + [f / 256 / 256 % 256];
    assert BigEndian(3, f / 256) == BigEndian(2, f / 256 / 256) + [f / 256 % 256];
    assert BigEndian(4, f) == BigEndian(3, f / 256) + [f % 256];
  }

  /** ToRowKey(field_id) + "_", and BuildCompositeHeader for several fields. */
  function Header(slot: Slot): (b: ByteString)
    requires forall i :: 0 <= i < |slot| ==> slot[i] < 0x5F00_0000
    ensures |b| == 4 * |slot| + 1
  {
    if slot == [] then [SEPARATOR] else FieldKey(slot[0]) + Header(slot[1..])
  }

  function EncodeValues(ws: Widths, slot: Slot, vals: seq<int>): ByteString
    requires |vals| == |slot|
    requires forall i :: 0 <= i < |slot| ==> slot[i] < |ws| && InRange(ws[slot[i]], vals[i])
  {
    if slot == [] then []
    else Sortable(ws[slot[0]], vals[0]) + EncodeValues(ws, slot[1..], vals[1..])
  }

  /** InvertedIndex::GenKeyPrefix. */
  function ValuePrefix(ws: Widths, f: nat, v: int): ByteString
    requires f < |ws| && InRange(ws[f], v)
  {
    Header([f]) + Sortable(ws[f], v) + [SEPARATOR]
  }

  /** InvertedIndex::GenKey for one field, GenCompositeFullKey for several. */
  function IndexKey(ws: Widths, slot: Slot, vals: seq<int>, docid: nat): ByteString
    requires SlotOk(ws, slot) && ValuesOk(ws, slot, vals) && DocidOk(docid)
  {
    if |slot| == 1 then ValuePrefix(ws, slot[0], vals[0]) + BigEndian(8, docid)
    else Header(slot) + EncodeValues(ws, slot, vals) + BigEndian(8, docid)
  }

  function MarkerKey(name: ByteString): ByteString {
    MARKER_PREFIX + name
  }

  /** What follows the header in a key of this slot. */
  function Tail(ws: Widths, slot: Slot, vals: seq<int>, docid: nat): ByteString
    requires SlotOk(ws, slot) && ValuesOk(ws, slot, vals) && DocidOk(docid)
  {
    EncodeValues(ws, slot, vals) + (if |slot| == 1 then [SEPARATOR] else []) + BigEndian(8, docid)
  }

  lemma IndexKeyParts(ws: Widths, slot: Slot, vals: seq<int>, docid: nat)
    requires SlotOk(ws, slot) && ValuesOk(ws, slot, vals) && DocidOk(docid)
    ensures IndexKey(ws, slot, vals, docid) == Header(slot) + Tail(ws, slot, vals, docid)
    ensures Header(slot) <= IndexKey(ws, slot, vals, docid)
    ensures |IndexKey(ws, slot, vals, docid)| >= 8
  {
    if |slot| == 1 {
      assert slot == [slot[0]];
      assert EncodeValues(ws, slot[1..], vals[1..]) == [];
      assert EncodeValues(ws, slot, vals) == Sortable(ws[slot[0]], vals[0]);
    }
  }

  /** No header is a prefix of a key built on another header. */
  lemma {:induction false} HeaderPrefixFree(s: Slot, t: Slot, x: ByteString)
    requires forall i :: 0 <= i < |s| ==> s[i] < 0x5F00_0000
    requires forall i :: 0 <= i < |t| ==> t[i] < 0x5F00_0000
    requires Header(s) <= Header(t) + x
    ensures s == t
  {
    var k := Header(t) + x;
    assert Header(s)[0] == k[0];
    if s != [] {
      FieldKeyFirstByte(s[0]);
      assert Header(s)[0] == FieldKey(s[0])[0];
    }
    if t != [] {
      FieldKeyFirstByte(t[0]);
      assert Header(t)[0] == FieldKey(t[0])[0];
    }
    if s != [] && t != [] {
      FirstFieldAlike(FieldKey(s[0]), Header(s[1..]), FieldKey(t[0]), Header(t[1..]), x);
      SameField(s[0], t[0]);
      HeaderPrefixFree(s[1..], t[1..], x);
      assert s == [s[0]] + s[1..] && t == [t[0]] + t[1..];
    }
  }

  lemma FirstFieldAlike(a: ByteString, b: ByteString, c: ByteString, d: ByteString, x: ByteString)
    requires |a| == |c| && a + b <= c + d + x
    ensures a == c && b <= d + x
  {
    assert a == (a + b)[..|a|] && c == (c + d + x)[..|a|];
    assert b == (a + b)[|a|..] && d + x == (c + d + x)[|a|..];
  }

  lemma SameField(f: nat, g: nat)
    requires f < 0x5F00_0000 && g < 0x5F00_0000 && FieldKey(f) == FieldKey(g)
    ensures f == g
  {
    FieldKeyBack(f);
    FieldKeyBack(g);
  }

  lemma {:induction false} EncodeValuesInjective(ws: Widths, slot: Slot, u: seq<int>, v: seq<int>)
    requires |u| == |slot| == |v|
    requires forall i :: 0 <= i < |slot| ==> slot[i] < |ws| && InRange(ws[slot[i]], u[i]) && InRange(ws[slot[i]], v[i])
    ensures |EncodeValues(ws, slot, u)| == |EncodeValues(ws, slot, v)|
    ensures EncodeValues(ws, slot, u) == EncodeValues(ws, slot, v) ==> u == v
  {
    if slot != [] {
      EncodeValuesInjective(ws, slot[1..], u[1..], v[1..]);
      var n := ws[slot[0]];
      SortableOrder(n, u[0], v[0]);
      var a, b := EncodeValues(ws, slot, u), EncodeValues(ws, slot, v);
      assert a[..n] == Sortable(n, u[0]) && b[..n] == Sortable(n, v[0]);
      assert a[n..] == EncodeValues(ws, slot[1..], u[1..]) && b[n..] == EncodeValues(ws, slot[1..], v[1..]);
      assert u == [u[0]] + u[1..] && v == [v[0]] + v[1..];
    }
  }

  /** One key belongs to one (slot, values, docid). */
  lemma IndexKeyInjective(ws: Widths, s: Slot, u: seq<int>, c: nat, t: Slot, v: seq<int>, d: nat)
    requires SlotOk(ws, s) && ValuesOk(ws, s, u) && DocidOk(c)
    requires SlotOk(ws, t) && ValuesOk(ws, t, v) && DocidOk(d)
    ensures IndexKey(ws, s, u, c) == IndexKey(ws, t, v, d) ==> s == t && u == v && c == d
  {
    IndexKeyParts(ws, s, u, c);
    IndexKeyParts(ws, t, v, d);
    if IndexKey(ws, s, u, c) == IndexKey(ws, t, v, d) {
      HeaderPrefixFree(s, t, Tail(ws, t, v, d));
      var h := |Header(s)|;
      assert (Header(s) + Tail(ws, s, u, c))[h..] == Tail(ws, s, u, c);
      assert (Header(t) + Tail(ws, t, v, d))[h..] == Tail(ws, t, v, d);
      EncodeValuesInjective(ws, s, u, v);
      var e := |EncodeValues(ws, s, u)|;
      assert Tail(ws, s, u, c)[..e] == EncodeValues(ws, s, u);
      assert Tail(ws, t, v, d)[..e] == EncodeValues(ws, s, v);
      var m := |Tail(ws, s, u, c)|;
      assert Tail(ws, s, u, c)[m - 8..] == BigEndian(8, c);
      assert Tail(ws, t, v, d)[m - 8..] == BigEndian(8, d);
      BigEndianOrder(8, c, d);
    }
  }

  /** The docid decoded from the last eight bytes, as every scan does it. */
  lemma DocidAtTail(ws: Widths, slot: Slot, vals: seq<int>, docid: nat)
    requires SlotOk(ws, slot) && ValuesOk(ws, slot, vals) && DocidOk(docid)
    ensures var k := IndexKey(ws, slot, vals, docid); |k| >= 8 && FromBigEndian(k[|k| - 8..]) == docid
  {
    IndexKeyParts(ws, slot, vals, docid);
    var k := IndexKey(ws, slot, vals, docid);
    assert k[|k| - 8..] == BigEndian(8, docid);
    BigEndianRoundTrip(8, docid);
  }

  /** The field ids decoded from the first bytes, four each, and the separator behind them. */
  lemma {:induction false} FieldsAtHead(slot: Slot, i: nat)
    requires (forall j :: 0 <= j < |slot| ==> slot[j] < 0x5F00_0000) && i < |slot|
    ensures HasAt(Header(slot), 4 * i, FieldKey(slot[i])) && FromBigEndian(FieldKey(slot[i])) == slot[i]
    ensures Header(slot)[4 * |slot|] == SEPARATOR
    decreases slot
  {
    FieldKeyBack(slot[i]);
    HeaderEnd(slot);
    if i == 0 {
      HasLeft(FieldKey(slot[0]), Header(slot[1..]), 0, FieldKey(slot[0]));
    } else {
      FieldsAtHead(slot[1..], i - 1);
      HasRight(FieldKey(slot[0]), Header(slot[1..]), 4 * (i - 1), FieldKey(slot[i]));
    }
  }

  lemma FieldKeyBack(f: nat)
    requires f < 0x5F00_0000
    ensures HasAt(FieldKey(f), 0, FieldKey(f)) && FromBigEndian(FieldKey(f)) == f
  {
    FourBytes();
    BigEndianRoundTrip(4, f);
  }

  lemma {:induction false} HeaderEnd(slot: Slot)
    requires forall j :: 0 <= j < |slot| ==> slot[j] < 0x5F00_0000
    ensures Header(slot)[4 * |slot|] == SEPARATOR
  {
    if slot != [] { HeaderEnd(slot[1..]); }
  }

  /** The range DeleteRange gets in DropAll. */
  predicate InDropRange(slot: Slot, k: ByteString)
    requires forall i :: 0 <= i < |slot| ==> slot[i] < 0x5F00_0000
  {
    AtMost(Header(slot), k) && Less(k, Advanced(Header(slot)))
  }

  lemma HeaderAdvances(slot: Slot)
    requires forall i :: 0 <= i < |slot| ==> slot[i] < 0x5F00_0000
    ensures Advanced(Header(slot)) != []
    ensures Header(slot)[|Header(slot)| - 1] == SEPARATOR
  {
    if slot != [] { HeaderAdvances(slot[1..]); }
    AdvancedSomeByte(Header(slot), |Header(slot)| - 1);
  }

  /**
   * DropAll is exact: its range holds every key of its own slot, whatever the
   * value bytes, and no key of any other slot and no BUILDING marker.
   */
  lemma DropRangeExact(ws: Widths, slot: Slot, t: Slot, vals: seq<int>, docid: nat, name: ByteString)
    requires SlotOk(ws, slot) && SlotOk(ws, t) && ValuesOk(ws, t, vals) && DocidOk(docid)
    ensures InDropRange(slot, IndexKey(ws, t, vals, docid)) <==> t == slot
    ensures !InDropRange(slot, MarkerKey(name))
  {
    HeaderAdvances(slot);
    var k := IndexKey(ws, t, vals, docid);
    PrefixRangeExact(Header(slot), k);
    IndexKeyParts(ws, t, vals, docid);
    if Header(slot) <= k {
      HeaderPrefixFree(slot, t, Tail(ws, t, vals, docid));
    }
    PrefixRangeExact(Header(slot), MarkerKey(name));
    FieldKeyFirstByte(slot[0]);
    assert Header(slot)[0] == FieldKey(slot[0])[0];
    assert MarkerKey(name)[0] == 0xFE;
  }

  /** Why the bound is not header + 0xFF: the largest value's keys sort above it. */
  lemma NaiveBoundMissesMaximum(ws: Widths, f: nat, docid: nat)
    requires f < |ws| && DocidOk(docid)
    ensures var k := IndexKey(ws, [f], [Half(ws[f]) - 1], docid);
            InDropRange([f], k) && !Less(k, Header([f]) + [0xFF])
  {
    var top := Half(ws[f]) - 1;
    DropRangeExact(ws, [f], [f], [top], docid, []);
    IndexKeyParts(ws, [f], [top], docid);
    SortableExtremes(ws[f]);
    var t := Tail(ws, [f], [top], docid);
    assert EncodeValues(ws, [f], [top])[0] == 255;
    assert [0xFF] <= t;
    PrefixAtMost([0xFF], t);
    LessCancel(Header([f]), t, [0xFF]);
  }
}
