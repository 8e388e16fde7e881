/**
 * BitmapIndex: an in-memory std::map from a value's sortable form to the bitmap of
 * its docids, rebuilt from storage on load.
 */
module BitmapIndexes {
  import opened Bytes
  import opened KeyLayout
  import opened ScalarStore
  import opened ScalarQuery
  import opened Tables
  import opened Paging

  type Buckets = map<ByteString, set<nat>>

  /** The value a bucket key stands for. */
  function ValueOf(n: nat, k: ByteString): int
    requires n > 0
  {
    FromBigEndian(k) - Half(n)
  }

  ghost predicate Clean(n: nat, data: Buckets)
    requires n > 0
  {
    forall k :: k in data ==> InRange(n, ValueOf(n, k)) && k == Sortable(n, ValueOf(n, k))
  }

  lemma ValueOfSortable(n: nat, v: int)
    requires n > 0 && InRange(n, v)
    ensures ValueOf(n, Sortable(n, v)) == v
  {
    BigEndianRoundTrip(n, v + Half(n));
  }

  ghost function PostingsOf(n: nat, data: Buckets): Postings
    requires n > 0
  {
    set k, d | k in data && d in data[k] :: (ValueOf(n, k), d)
  }

  lemma PostedHere(n: nat, data: Buckets, v: int, d: nat)
    requires n > 0 && Clean(n, data) && InRange(n, v)
    ensures (v, d) in PostingsOf(n, data) <==> Sortable(n, v) in data && d in data[Sortable(n, v)]
  {
    ValueOfSortable(n, v);
    if (v, d) in PostingsOf(n, data) {
      var k :| k in data && d in data[k] && ValueOf(n, k) == v;
    }
  }

  function DocidsAt(data: Buckets, k: ByteString): set<nat> {
    if k in data then data[k] else {}
  }

  /** Whether one posting is there after one bucket was replaced. */
  lemma BucketPosting(n: nat, data: Buckets, v: int, bucket: set<nat>, x: int, d: nat)
    requires n > 0 && Clean(n, data) && InRange(n, v)
    ensures var after := data[Sortable(n, v) := bucket];
            && Clean(n, after)
            && ((x, d) in PostingsOf(n, after) <==> if x == v then d in bucket else (x, d) in PostingsOf(n, data))
  {
    var after := data[Sortable(n, v) := bucket];
    ValueOfSortable(n, v);
    assert Clean(n, after);
    if InRange(n, x) {
      PostedHere(n, after, x, d);
      PostedHere(n, data, x, d);
      SortableOrder(n, x, v);
    }
  }

  /** Adding a docid to a value's bucket, or taking it out, changes that one posting. */
  lemma BucketChanged(n: nat, data: Buckets, v: int, docid: nat)
    requires n > 0 && Clean(n, data) && InRange(n, v)
    ensures var k := Sortable(n, v);
            var more, less := data[k := DocidsAt(data, k) + {docid}], data[k := DocidsAt(data, k) - {docid}];
            && Clean(n, more) && PostingsOf(n, more) == PostingsOf(n, data) + {(v, docid)}
            && Clean(n, less) && PostingsOf(n, less) == PostingsOf(n, data) - {(v, docid)}
            && (k !in data ==> PostingsOf(n, data) - {(v, docid)} == PostingsOf(n, data))
  {
    var k := Sortable(n, v);
    var more, less := data[k := DocidsAt(data, k) + {docid}], data[k := DocidsAt(data, k) - {docid}];
    forall x, d: nat
      ensures (x, d) in PostingsOf(n, more) <==> (x, d) in PostingsOf(n, data) || (x, d) == (v, docid)
      ensures (x, d) in PostingsOf(n, less) <==> (x, d) in PostingsOf(n, data) && (x, d) != (v, docid)
    {
      BucketPosting(n, data, v, DocidsAt(data, k) + {docid}, x, d);
      BucketPosting(n, data, v, DocidsAt(data, k) - {docid}, x, d);
      PostedHere(n, data, v, d);
    }
    PostedHere(n, data, v, docid);
  }

  /** The positions that satisfy the query are those of one iterator range. */
  ghost predicate Selects(n: nat, ks: seq<ByteString>, a: nat, b: nat, q: Query)
    requires n > 0
  {
    forall i :: 0 <= i < |ks| ==> (a <= i < b <==> Satisfies(q, ValueOf(n, ks[i])))
  }

  lemma RangeOfBuckets(n: nat, data: Buckets, ks: seq<ByteString>, a: nat, b: nat, q: Query, r: set<nat>)
    requires n > 0 && b <= |ks|
    requires forall k :: k in ks <==> k in data
    requires Selects(n, ks, a, b, q)
    requires forall d :: d in r <==> exists i :: a <= i < b && ks[i] in data && d in data[ks[i]]
    ensures r == Select(PostingsOf(n, data), q)
  {
    var ps := PostingsOf(n, data);
    forall d | d in r ensures d in Select(ps, q) {
      var i :| a <= i < b && ks[i] in data && d in data[ks[i]];
      assert (ValueOf(n, ks[i]), d) in ps;
    }
    forall d | d in Select(ps, q) ensures d in r {
      var p :| p in ps && Satisfies(q, p.0) && p.1 == d;
      var k :| k in data && d in data[k] && ValueOf(n, k) == p.0;
      assert k in ks;
      var i :| 0 <= i < |ks| && ks[i] == k;
    }
  }

  lemma KeyOrder(n: nat, data: Buckets, k: ByteString, v: int)
    requires n > 0 && Clean(n, data) && k in data && InRange(n, v)
    ensures Less(k, Sortable(n, v)) <==> ValueOf(n, k) < v
    ensures Less(Sortable(n, v), k) <==> v < ValueOf(n, k)
  {
    SortableOrder(n, ValueOf(n, k), v);
    SortableOrder(n, v, ValueOf(n, k));
  }

  /** std::map::upper_bound: the first position above the target. */
  method UpperBound(it: seq<ByteString>, target: ByteString) returns (pos: nat)
    requires StrictlySorted(it)
    ensures pos <= |it|
    ensures forall i :: 0 <= i < pos ==> AtMost(it[i], target)
    ensures forall i :: pos <= i < |it| ==> Less(target, it[i])
  {
    pos := 0;
    while pos < |it| && !Less(target, it[pos])
      invariant pos <= |it|
      invariant forall i :: 0 <= i < pos ==> AtMost(it[i], target)
    {
      pos := pos + 1;
    }
    forall i | pos <= i < |it| ensures Less(target, it[i]) {
      if i > pos { LessTransitive(target, it[pos], it[i]); }
    }
  }

  predicate FailsBoth(lower: int, lowerInclusive: bool, upper: int, upperInclusive: bool, v: int) {
    !AboveLower(lower, lowerInclusive, v) && !BelowUpper(upper, upperInclusive, v)
  }

  lemma NoneFailsBoth(n: nat, data: Buckets, ks: seq<ByteString>, start: nat, end: nat,
                      lower: int, lowerInclusive: bool, upper: int, upperInclusive: bool)
    requires n > 0 && start <= end && forall k :: k in ks <==> k in data
    requires forall i :: 0 <= i < |ks| ==> (i >= start <==> AboveLower(lower, lowerInclusive, ValueOf(n, ks[i])))
    requires forall i :: 0 <= i < |ks| ==> (i < end <==> BelowUpper(upper, upperInclusive, ValueOf(n, ks[i])))
    ensures forall k :: k in data ==> !FailsBoth(lower, lowerInclusive, upper, upperInclusive, ValueOf(n, k))
  {
    forall k | k in data ensures !FailsBoth(lower, lowerInclusive, upper, upperInclusive, ValueOf(n, k)) {
      assert k in ks;
      var i :| 0 <= i < |ks| && ks[i] == k;
    }
  }

  /** An iterator range that may start past its end, where C++ leaves the loop undefined. */
  datatype RangeResult = Answer(docids: set<nat>) | StartsPastEnd

  class BitmapIndex {
    const table: Table
    const field: nat
    var data: Buckets

    constructor (table: Table, field: nat)
      ensures this.table == table && this.field == field && data == map[]
    {
      this.table := table;
      this.field := field;
      data := map[];
    }

    ghost predicate Valid()
      reads this, table
    {
      table.Valid() && field < |table.ws| && Clean(table.ws[field], data)
    }

    ghost function Contents(): Postings
      requires Valid()
      reads this, table
    {
      PostingsOf(table.ws[field], data)
    }

    method Clear()
      requires Valid()
      modifies this`data
      ensures Valid() && Contents() == {}
    {
      data := map[];
    }

    method AddDoc(docid: nat) returns (ret: int)
      requires Valid()
      modifies this`data
      ensures Valid()
      ensures ret == 0 <==> docid in table.rows
      ensures Contents() == if docid in table.rows then old(Contents()) + {(table.rows[docid][field], docid)}
                else old(Contents())
    {
      var n, v := table.ws[field], 0;
      ret, v := table.GetFieldRawValue(docid, field);
      if ret != 0 { return; }
      var valueKey := Sortable(n, v);
      BucketChanged(n, data, v, docid);
      if valueKey !in data {
        assert DocidsAt(data, valueKey) + {docid} == {docid};
        data := data[valueKey := {docid}];
      } else {
        data := data[valueKey := data[valueKey] + {docid}];
      }
      ret := 0;
    }

    method DeleteDoc(docid: nat) returns (ret: int)
      requires Valid()
      modifies this`data
      ensures Valid()
      ensures ret == 0 <==> docid in table.rows
      ensures Contents() == if docid in table.rows then old(Contents()) - {(table.rows[docid][field], docid)}
                else old(Contents())
    {
      var n, v := table.ws[field], 0;
      ret, v := table.GetFieldRawValue(docid, field);
      if ret != 0 { return; }
      var valueKey := Sortable(n, v);
      BucketChanged(n, data, v, docid);
      if valueKey in data {
        data := data[valueKey := data[valueKey] - {docid}];
      }
      ret := 0;
    }

    /** Rebuild from storage: every docid with a row, deleted or not. */
    method Init(size: nat)
      requires Valid()
      modifies this`data
      ensures Valid()
      ensures Contents() == set d | d in table.rows && d < size :: (table.rows[d][field], d)
    {
      Clear();
      for docid := 0 to size
        invariant Valid()
        invariant Contents() == set d | d in table.rows && d < docid :: (table.rows[d][field], d)
      {
        var _ := AddDoc(docid);
      }
    }

    /** Union of the buckets from position a to position b. */
    method Union(ks: seq<ByteString>, a: nat, b: nat) returns (r: set<nat>)
      requires a <= b <= |ks| && forall i :: 0 <= i < |ks| ==> ks[i] in data
      ensures forall d :: d in r <==> exists i :: a <= i < b && ks[i] in data && d in data[ks[i]]
    {
      r := {};
      for i := a to b
        invariant forall d :: d in r <==> exists j :: a <= j < i && ks[j] in data && d in data[ks[j]]
      {
        r := r + data[ks[i]];
      }
    }

    /** data_.find on one value. */
    method Bucket(value: int) returns (r: set<nat>)
      requires Valid() && InRange(table.ws[field], value)
      ensures r == Select(Contents(), Query.Equal(value))
    {
      var n := table.ws[field];
      var valueKey := Sortable(n, value);
      r := {};
      if valueKey in data { r := data[valueKey]; }
      forall d ensures d in r <==> d in Select(Contents(), Query.Equal(value)) {
        PostedHere(n, data, value, d);
        if d in r { assert (value, d) in Contents(); }
      }
    }

    /** The union of the values' buckets. */
    method UnionOf(values: seq<int>) returns (r: set<nat>)
      requires Valid() && forall i :: 0 <= i < |values| ==> InRange(table.ws[field], values[i])
      ensures r == Select(Contents(), Query.In(values))
    {
      r := {};
      for i := 0 to |values|
        invariant r == Select(Contents(), Query.In(values[..i]))
      {
        var one := Bucket(values[i]);
        r := r + one;
        assert forall v :: v in values[..i + 1] <==> v in values[..i] || v == values[i];
      }
      assert values[..|values|] == values;
    }

    // Every answer is cut by offset and limit in docid order.

    method In(values: seq<int>, offset: int, limit: int) returns (r: set<nat>)
      requires Valid() && forall i :: 0 <= i < |values| ==> InRange(table.ws[field], values[i])
      ensures r == PageOf(Select(Contents(), Query.In(values)), offset, limit)
    {
      r := UnionOf(values);
      r := CutPage(r, offset, limit);
    }

    method NotIn(values: seq<int>, size: nat, offset: int, limit: int) returns (r: set<nat>)
      requires Valid() && forall i :: 0 <= i < |values| ==> InRange(table.ws[field], values[i])
      ensures r == PageOf(IndexAnswer(Contents(), size, Query.NotIn(values)), offset, limit)
    {
      var inValues := UnionOf(values);
      r := CutPage(UpTo(size) - inValues, offset, limit);
    }

    method Equal(value: int, offset: int, limit: int) returns (r: set<nat>)
      requires Valid() && InRange(table.ws[field], value)
      ensures r == PageOf(Select(Contents(), Query.Equal(value)), offset, limit)
    {
      r := Bucket(value);
      r := CutPage(r, offset, limit);
    }

    method NotEqual(value: int, size: nat, offset: int, limit: int) returns (r: set<nat>)
      requires Valid() && InRange(table.ws[field], value)
      ensures r == PageOf(IndexAnswer(Contents(), size, Query.NotEqual(value)), offset, limit)
    {
      var eq := Bucket(value);
      r := CutPage(UpTo(size) - eq, offset, limit);
    }

    /** The map's iteration order. */
    method SortedKeys() returns (ks: seq<ByteString>)
      ensures StrictlySorted(ks) && forall k :: k in ks <==> k in data
    {
      ks := Sorted(data.Keys);
    }

    /** lower_bound or upper_bound of the lower value: where the values above it start. */
    method StartAt(ks: seq<ByteString>, lower: int, inclusive: bool) returns (start: nat)
      requires Valid() && InRange(table.ws[field], lower) && StrictlySorted(ks) && forall k :: k in ks <==> k in data
      ensures start <= |ks|
      ensures forall i :: 0 <= i < |ks| ==>
                (i >= start <==> AboveLower(lower, inclusive, ValueOf(table.ws[field], ks[i])))
    {
      var n := table.ws[field];
      if inclusive { start := Seek(ks, Sortable(n, lower)); } else { start := UpperBound(ks, Sortable(n, lower)); }
      forall i | 0 <= i < |ks| ensures i >= start <==> AboveLower(lower, inclusive, ValueOf(n, ks[i])) {
        KeyOrder(n, data, ks[i], lower);
      }
    }

    /** upper_bound or lower_bound of the upper value: where the values below it end. */
    method EndAt(ks: seq<ByteString>, upper: int, inclusive: bool) returns (end: nat)
      requires Valid() && InRange(table.ws[field], upper) && StrictlySorted(ks) && forall k :: k in ks <==> k in data
      ensures end <= |ks|
      ensures forall i :: 0 <= i < |ks| ==> (i < end <==> BelowUpper(upper, inclusive, ValueOf(table.ws[field], ks[i])))
    {
      var n := table.ws[field];
      if inclusive { end := UpperBound(ks, Sortable(n, upper)); } else { end := Seek(ks, Sortable(n, upper)); }
      forall i | 0 <= i < |ks| ensures i < end <==> BelowUpper(upper, inclusive, ValueOf(n, ks[i])) {
        KeyOrder(n, data, ks[i], upper);
      }
    }

    /**
     * Undefined exactly when some bucket's value fails both bounds, which needs upper to
     * lie below lower (or equal, both exclusive); otherwise the query's postings.
     */
    method Range(lower: int, lowerInclusive: bool, upper: int, upperInclusive: bool, offset: int, limit: int)
      returns (r: RangeResult)
      requires Valid() && InRange(table.ws[field], lower) && InRange(table.ws[field], upper)
      ensures r.StartsPastEnd? <==>
              exists k :: k in data
                  && FailsBoth(lower, lowerInclusive, upper, upperInclusive, ValueOf(table.ws[field], k))
      ensures r.Answer? ==>
                r.docids == PageOf(Select(Contents(), Query.Range(lower, lowerInclusive, upper, upperInclusive)),
                    offset, limit)
    {
      var ks := SortedKeys();
      var start := StartAt(ks, lower, lowerInclusive);
      var end := EndAt(ks, upper, upperInclusive);
      if start > end {
        assert ks[end] in data;
        return StartsPastEnd;
      }
      NoneFailsBoth(table.ws[field], data, ks, start, end, lower, lowerInclusive, upper, upperInclusive);
      var docids := Union(ks, start, end);
      RangeOfBuckets(table.ws[field], data, ks, start, end, Query.Range(lower, lowerInclusive, upper, upperInclusive),
          docids);
      docids := CutPage(docids, offset, limit);
      r := Answer(docids);
    }

    method LessThan(value: int, offset: int, limit: int) returns (r: set<nat>)
      requires Valid() && InRange(table.ws[field], value)
      ensures r == PageOf(Select(Contents(), Query.LessThan(value)), offset, limit)
    {
      var ks := SortedKeys();
      var end := EndAt(ks, value, false);
      r := Union(ks, 0, end);
      RangeOfBuckets(table.ws[field], data, ks, 0, end, Query.LessThan(value), r);
      r := CutPage(r, offset, limit);
    }

    method LessEqual(value: int, offset: int, limit: int) returns (r: set<nat>)
      requires Valid() && InRange(table.ws[field], value)
      ensures r == PageOf(Select(Contents(), Query.LessEqual(value)), offset, limit)
    {
      var ks := SortedKeys();
      var end := EndAt(ks, value, true);
      r := Union(ks, 0, end);
      RangeOfBuckets(table.ws[field], data, ks, 0, end, Query.LessEqual(value), r);
      r := CutPage(r, offset, limit);
    }

    method GreaterThan(value: int, offset: int, limit: int) returns (r: set<nat>)
      requires Valid() && InRange(table.ws[field], value)
      ensures r == PageOf(Select(Contents(), Query.GreaterThan(value)), offset, limit)
    {
      var ks := SortedKeys();
      var start := StartAt(ks, value, false);
      r := Union(ks, start, |ks|);
      RangeOfBuckets(table.ws[field], data, ks, start, |ks|, Query.GreaterThan(value), r);
      r := CutPage(r, offset, limit);
    }

    method GreaterEqual(value: int, offset: int, limit: int) returns (r: set<nat>)
      requires Valid() && InRange(table.ws[field], value)
      ensures r == PageOf(Select(Contents(), Query.GreaterEqual(value)), offset, limit)
    {
      var ks := SortedKeys();
      var start := StartAt(ks, value, true);
      r := Union(ks, start, |ks|);
      RangeOfBuckets(table.ws[field], data, ks, start, |ks|, Query.GreaterEqual(value), r);
      r := CutPage(r, offset, limit);
    }
  }
}
