/**
 * RocksDB's "scalar" column family as an ordered set of byte keys (values are
 * empty), and the (slot, values, docid) entries those keys stand for.
 */
module ScalarStore {
  import opened Bytes
  import opened KeyLayout

  lemma {:induction false} LeastOf(keys: set<ByteString>) returns (least: ByteString)
    requires keys != {}
    ensures least in keys && forall j :: j in keys ==> AtMost(least, j)
  {
    var x :| x in keys;
    LessIrreflexive(x);
    var rest := keys - {x};
    if rest == {} {
      least := x;
    } else {
      var y := LeastOf(rest);
      least := if Less(x, y) then x else y;
      if least == x {
        forall j | j in rest ensures AtMost(x, j) {
          LessAsymmetric(x, y);
          AtMostTransitive(x, y, j);
        }
      }
    }
    assert forall j :: j in keys ==> j == x || j in rest;
  }

  lemma LeastExists(keys: set<ByteString>)
    requires keys != {}
    ensures exists k :: k in keys && forall j :: j in keys ==> AtMost(k, j)
  {
    var k := LeastOf(keys);
  }

  /** The keys in iteration order. */
  ghost function Ordered(keys: set<ByteString>): (ks: seq<ByteString>)
    ensures forall k :: k in ks <==> k in keys
    ensures StrictlySorted(ks)
  {
    if keys == {} then []
    else
      LeastExists(keys);
      var k :| k in keys && forall j :: j in keys ==> AtMost(k, j);
      var rest := Ordered(keys - {k});
      assert forall j :: j in rest ==> Less(k, j) by {
        forall j | j in rest ensures Less(k, j) { LessTotal(k, j); }
      }
      [k] + rest
  }

  lemma {:induction false} OrderedUnique(a: seq<ByteString>, b: seq<ByteString>)
    requires StrictlySorted(a) && StrictlySorted(b)
    requires forall k :: k in a <==> k in b
    ensures a == b
  {
    assert b != [] ==> b[0] in a;
    if a != [] {
      assert a[0] in b;
      assert b[0] in a;
      var i :| 0 <= i < |b| && b[i] == a[0];
      var j :| 0 <= j < |a| && a[j] == b[0];
      if i > 0 && j > 0 { LessAsymmetric(a[0], a[j]); }
      assert a[0] == b[0];
      forall k ensures k in a[1..] <==> k in b[1..] {
        LessIrreflexive(a[0]);
        if k in a[1..] { assert k in b; assert k != a[0]; }
        if k in b[1..] { assert k in a; assert k != b[0]; }
      }
      OrderedUnique(a[1..], b[1..]);
      assert a == [a[0]] + a[1..] && b == [b[0]] + b[1..];
    }
  }

  class ColumnFamily {
    var keys: set<ByteString>

    constructor ()
      ensures keys == {}
    {
      keys := {};
    }

    method Put(k: ByteString)
      modifies this
      ensures keys == old(keys) + {k}
    {
      keys := keys + {k};
    }

    method Delete(k: ByteString)
      modifies this
      ensures keys == old(keys) - {k}
    {
      keys := keys - {k};
    }

    /** Removes the keys in [begin, end). */
    method DeleteRange(begin: ByteString, end: ByteString)
      modifies this
      ensures keys == set k | k in old(keys) && !(AtMost(begin, k) && Less(k, end))
    {
      keys := set k | k in keys && !(AtMost(begin, k) && Less(k, end));
    }

    /** A snapshot iterator: the keys in order. */
    method NewIterator() returns (it: seq<ByteString>)
      ensures it == Ordered(keys)
    {
      it := Sorted(keys);
    }
  }

  method Sorted(keys: set<ByteString>) returns (it: seq<ByteString>)
    ensures it == Ordered(keys)
  {
    it := [];
    var rest := keys;
    while rest != {}
      invariant StrictlySorted(it)
      invariant rest <= keys
      invariant forall k :: k in keys <==> k in it || k in rest
      invariant forall i, k :: 0 <= i < |it| && k in rest ==> Less(it[i], k)
      decreases |rest|
    {
      var least := Least(rest);
      it := it + [least];
      rest := rest - {least};
      forall k | k in rest ensures Less(least, k) { LessTotal(least, k); }
    }
    OrderedUnique(it, Ordered(keys));
  }

  method Least(s: set<ByteString>) returns (least: ByteString)
    requires s != {}
    ensures least in s && forall j :: j in s ==> AtMost(least, j)
  {
    least :| least in s;
    LessIrreflexive(least);
    var rest := s - {least};
    while rest != {}
      invariant rest <= s && least in s && least !in rest
      invariant forall j :: j in s && j !in rest ==> AtMost(least, j)
      decreases |rest|
    {
      var x :| x in rest;
      rest := rest - {x};
      LessIrreflexive(x);
      if Less(x, least) {
        forall j | j in s && j !in rest && j != x ensures AtMost(x, j) {
          if Less(j, x) { LessTransitive(j, x, least); }
        }
        least := x;
      }
    }
  }

  /** The first position not below the target: Iterator::Seek, and std::map::lower_bound. */
  method Seek(it: seq<ByteString>, target: ByteString) returns (pos: nat)
    requires StrictlySorted(it)
    ensures pos <= |it|
    ensures forall i :: 0 <= i < pos ==> Less(it[i], target)
    ensures forall i :: pos <= i < |it| ==> AtMost(target, it[i])
  {
    pos := 0;
    while pos < |it| && Less(it[pos], target)
      invariant pos <= |it|
      invariant forall i :: 0 <= i < pos ==> Less(it[i], target)
    {
      pos := pos + 1;
    }
    forall i | pos <= i < |it| ensures AtMost(target, it[i]) {
      if i > pos && Less(it[i], target) { LessTransitive(it[pos], it[i], target); }
    }
  }

  datatype Entry = Entry(slot: Slot, vals: seq<int>, docid: nat)

  predicate EntryOk(ws: Widths, e: Entry) {
    SlotOk(ws, e.slot) && ValuesOk(ws, e.slot, e.vals) && DocidOk(e.docid)
  }

  function EntryKey(ws: Widths, e: Entry): ByteString
    requires EntryOk(ws, e)
  {
    IndexKey(ws, e.slot, e.vals, e.docid)
  }

  /** The key set stands for these entries and these BUILDING markers, and nothing else. */
  ghost predicate Represents(ws: Widths, keys: set<ByteString>, entries: set<Entry>, markers: set<ByteString>) {
    && (forall e :: e in entries ==> EntryOk(ws, e) && EntryKey(ws, e) in keys)
    && (forall m :: m in markers ==> MarkerKey(m) in keys)
    && (forall k :: k in keys ==>
          (exists e :: e in entries && EntryOk(ws, e) && EntryKey(ws, e) == k)
          || (exists m :: m in markers && MarkerKey(m) == k))
  }

  lemma MarkerIsNoEntry(ws: Widths, e: Entry, name: ByteString)
    requires EntryOk(ws, e)
    ensures EntryKey(ws, e) != MarkerKey(name)
  {
    DropRangeExact(ws, e.slot, e.slot, e.vals, e.docid, name);
  }

  /** One index write changes one entry and nothing else. */
  lemma WriteRefines(ws: Widths, keys: set<ByteString>, entries: set<Entry>, markers: set<ByteString>, e: Entry)
    requires Represents(ws, keys, entries, markers) && EntryOk(ws, e)
    ensures Represents(ws, keys + {EntryKey(ws, e)}, entries + {e}, markers)
    ensures Represents(ws, keys - {EntryKey(ws, e)}, entries - {e}, markers)
  {
    var k := EntryKey(ws, e);
    forall x | x in entries && x != e ensures EntryKey(ws, x) != k {
      IndexKeyInjective(ws, x.slot, x.vals, x.docid, e.slot, e.vals, e.docid);
    }
    forall m | m in markers ensures MarkerKey(m) != k {
      MarkerIsNoEntry(ws, e, m);
    }
    forall j | j in keys + {k}
      ensures (exists x :: x in entries + {e} && EntryOk(ws, x) && EntryKey(ws, x) == j)
              || (exists m :: m in markers && MarkerKey(m) == j)
    {
      if j == k { assert e in entries + {e}; }
      else if exists x :: x in entries && EntryOk(ws, x) && EntryKey(ws, x) == j {
        var x :| x in entries && EntryOk(ws, x) && EntryKey(ws, x) == j;
        assert x in entries + {e};
      }
    }
    forall j | j in keys - {k}
      ensures (exists x :: x in entries - {e} && EntryOk(ws, x) && EntryKey(ws, x) == j)
              || (exists m :: m in markers && MarkerKey(m) == j)
    {
      if exists x :: x in entries && EntryOk(ws, x) && EntryKey(ws, x) == j {
        var x :| x in entries && EntryOk(ws, x) && EntryKey(ws, x) == j;
        assert x in entries - {e};
      }
    }
  }

  function WithoutSlot(entries: set<Entry>, slot: Slot): set<Entry> {
    set e | e in entries && e.slot != slot
  }

  /** DropAll's DeleteRange removes one slot's entries: no other slot's, no marker. */
  lemma DropRefines(ws: Widths, keys: set<ByteString>, entries: set<Entry>, markers: set<ByteString>, slot: Slot)
    requires Represents(ws, keys, entries, markers) && SlotOk(ws, slot)
    ensures Represents(ws, (set k | k in keys && !InDropRange(slot, k)), WithoutSlot(entries, slot), markers)
  {
    forall e | e in entries ensures InDropRange(slot, EntryKey(ws, e)) <==> e.slot == slot {
      DropRangeExact(ws, slot, e.slot, e.vals, e.docid, []);
    }
    forall m | m in markers ensures !InDropRange(slot, MarkerKey(m)) {
      DropRangeExact(ws, slot, slot, seq(|slot|, _ => 0), 0, m);
    }
    var left := set k | k in keys && !InDropRange(slot, k);
    forall j | j in left
      ensures (exists x :: x in WithoutSlot(entries, slot) && EntryOk(ws, x) && EntryKey(ws, x) == j)
              || (exists m :: m in markers && MarkerKey(m) == j)
    {
      if exists x :: x in entries && EntryOk(ws, x) && EntryKey(ws, x) == j {
        var x :| x in entries && EntryOk(ws, x) && EntryKey(ws, x) == j;
        assert x in WithoutSlot(entries, slot);
      }
    }
  }
}
