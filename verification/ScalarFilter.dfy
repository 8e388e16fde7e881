/**
 * ScalarIndexManager::Filter on a numeric field: which index operation a filter
 * becomes, and that either index then answers like a scan of the table.
 */
module ScalarFilter {
  import opened KeyLayout
  import opened ScalarQuery
  import opened InvertedIndexes
  import opened BitmapIndexes
  import opened Paging
  import opened Options

  /** A missing bound is the empty string in the source. */
  datatype FilterInfo = FilterInfo(lower: Option<int>, upper: Option<int>, includeLower: bool, includeUpper: bool,
                                   isNot: bool)

  /** What the bounds ask for. */
  predicate Meets(fi: FilterInfo, v: int) {
    && (fi.lower.Some? ==> AboveLower(fi.lower.value, fi.includeLower, v))
    && (fi.upper.Some? ==> BelowUpper(fi.upper.value, fi.includeUpper, v))
  }

  /** The operation chosen; none when both bounds are missing (the result stays empty). */
  function Dispatch(fi: FilterInfo): Option<Query> {
    if fi.lower.None? && fi.upper.None? then None
    else if fi.lower == fi.upper then
      if fi.isNot then Some(NotEqual(fi.lower.value)) else Some(Equal(fi.lower.value))
    else if fi.lower.None? then
      if fi.includeUpper then Some(LessEqual(fi.upper.value)) else Some(LessThan(fi.upper.value))
    else if fi.upper.None? then
      if fi.includeLower then Some(GreaterEqual(fi.lower.value)) else Some(GreaterThan(fi.lower.value))
    else Some(Range(fi.lower.value, fi.includeLower, fi.upper.value, fi.includeUpper))
  }

  /**
   * The chosen operation means the bounds exactly when equal bounds are both inclusive:
   * "x > 3 and x < 3" is dispatched to Equal(3).
   */
  lemma DispatchMeansBounds(fi: FilterInfo)
    requires (fi.lower.Some? || fi.upper.Some?) && !fi.isNot
    ensures Dispatch(fi).Some?
    ensures (forall v :: Satisfies(Dispatch(fi).value, v) <==> Meets(fi, v))
            <==> (fi.lower == fi.upper ==> fi.includeLower && fi.includeUpper)
  {
    var q := Dispatch(fi).value;
    if fi.lower == fi.upper && !(fi.includeLower && fi.includeUpper) {
      assert Satisfies(q, fi.lower.value) && !Meets(fi, fi.lower.value);
    }
  }

  /** Not with equal bounds is the complement; Not with different bounds is dropped. */
  lemma DispatchOfNot(fi: FilterInfo)
    requires (fi.lower.Some? || fi.upper.Some?) && fi.isNot
    ensures Dispatch(fi).Some?
    ensures (forall v :: Satisfies(Dispatch(fi).value, v) <==> !Meets(fi, v))
            <==> fi.lower == fi.upper && fi.includeLower && fi.includeUpper
  {
    var q := Dispatch(fi).value;
    if fi.lower == fi.upper {
      var x := fi.lower.value;
      assert !Satisfies(q, x);
      assert Meets(fi, x) <==> fi.includeLower && fi.includeUpper;
    } else if fi.lower.Some? {
      var x := fi.lower.value;
      assert Satisfies(q, x) <==> Meets(fi, x);
    } else {
      var x := fi.upper.value;
      assert Satisfies(q, x) <==> Meets(fi, x);
    }
  }

  /** What an inverted index answers: a scan's page, or a complement cut in docid order. */
  ghost predicate ScanAnswer(ps: Postings, n: nat, size: nat, q: Query, offset: int, limit: int, result: set<nat>)
    requires n > 0 && QueryOk(n, q)
  {
    if q.NotEqual? || q.NotIn? then result == CutIfAsked(IndexAnswer(ps, size, q), offset, limit)
    else
      var scanned := if Ordering(q) then Within(n, q) else q;
      exists page :: PagedScan(ps, scanned, offset, limit, page) && result == page.found
  }

  /**
   * The filter through an inverted index: the query's postings by value and docid, cut by offset and
   * limit. Uncut it is a table scan, once deleted docids are dropped.
   */
  method FilterInverted(index: InvertedIndex, fi: FilterInfo, size: nat, offset: int, limit: int,
                        ghost column: map<nat, int>, ghost deleted: set<nat>)
    returns (result: set<nat>)
    requires index.Queryable()
    requires Dispatch(fi).Some? ==> QueryOk(index.table.ws[index.slot[0]], Dispatch(fi).value)
    requires ExactOnLive(index.Contents(), column, deleted) && column.Keys - deleted == UpTo(size) - deleted
    ensures Dispatch(fi).None? ==> result == {}
    ensures Dispatch(fi).Some? ==>
              ScanAnswer(index.Contents(), index.table.ws[index.slot[0]], size, Dispatch(fi).value, offset, limit,
                  result)
    ensures Dispatch(fi).Some? && NoWrap(index.table.ws[index.slot[0]], Dispatch(fi).value) && offset == 0 == limit ==>
              result - deleted == TableScan(column, deleted, Dispatch(fi).value)
  {
    result := {};
    if fi.lower.None? && fi.upper.None? { return; }
    var page := Page({}, 0);
    if fi.lower == fi.upper {
      if fi.isNot {
        result := index.NotEqual(fi.lower.value, size, offset, limit);
      } else {
        page := index.Equal(fi.lower.value, offset, limit);
        result := page.found;
      }
    } else if fi.lower.None? {
      if fi.includeUpper { page := index.LessEqual(fi.upper.value, offset, limit); }
      else { page := index.LessThan(fi.upper.value, offset, limit); }
      result := page.found;
    } else if fi.upper.None? {
      if fi.includeLower { page := index.GreaterEqual(fi.lower.value, offset, limit); }
      else { page := index.GreaterThan(fi.lower.value, offset, limit); }
      result := page.found;
    } else {
      page := index.Range(fi.lower.value, fi.includeLower, fi.upper.value, fi.includeUpper, offset, limit);
      result := page.found;
    }
    AnswerIsTableScan(index.Contents(), column, deleted, size, Dispatch(fi).value);
  }

  /**
   * The filter through a bitmap index: the same answer, cut in docid order. With the bounds in the
   * wrong order the iterator range may start past its end, and there is no answer.
   */
  method FilterBitmap(index: BitmapIndex, fi: FilterInfo, size: nat, offset: int, limit: int,
                      ghost column: map<nat, int>, ghost deleted: set<nat>)
    returns (result: RangeResult)
    requires index.Valid()
    requires Dispatch(fi).Some? ==> QueryOk(index.table.ws[index.field], Dispatch(fi).value)
    requires ExactOnLive(index.Contents(), column, deleted) && column.Keys - deleted == UpTo(size) - deleted
    ensures Dispatch(fi).None? ==> result == Answer({})
    ensures fi.lower.None? || fi.upper.None? || fi.lower.value <= fi.upper.value ==> result.Answer?
    ensures Dispatch(fi).Some? && result.Answer? ==>
              result.docids == PageOf(IndexAnswer(index.Contents(), size, Dispatch(fi).value), offset, limit)
    ensures Dispatch(fi).Some? && result.Answer? && offset == 0 == limit ==>
              result.docids - deleted == TableScan(column, deleted, Dispatch(fi).value)
  {
    result := Answer({});
    if fi.lower.None? && fi.upper.None? { return; }
    var docids := {};
    if fi.lower == fi.upper {
      if fi.isNot { docids := index.NotEqual(fi.lower.value, size, offset, limit); }
      else { docids := index.Equal(fi.lower.value, offset, limit); }
      result := Answer(docids);
    } else if fi.lower.None? {
      if fi.includeUpper { docids := index.LessEqual(fi.upper.value, offset, limit); }
      else { docids := index.LessThan(fi.upper.value, offset, limit); }
      result := Answer(docids);
    } else if fi.upper.None? {
      if fi.includeLower { docids := index.GreaterEqual(fi.lower.value, offset, limit); }
      else { docids := index.GreaterThan(fi.lower.value, offset, limit); }
      result := Answer(docids);
    } else {
      result := index.Range(fi.lower.value, fi.includeLower, fi.upper.value, fi.includeUpper, offset, limit);
    }
    AnswerIsTableScan(index.Contents(), column, deleted, size, Dispatch(fi).value);
  }

  /** An inverted and a bitmap index of one column answer every query alike, deleted docids aside. */
  lemma IndexesAgree(inverted: InvertedIndex, bitmap: BitmapIndex, column: map<nat, int>, deleted: set<nat>, size: nat,
                     q: Query)
    requires inverted.Queryable() && bitmap.Valid() && column.Keys - deleted == UpTo(size) - deleted
    requires ExactOnLive(inverted.Contents(), column, deleted) && ExactOnLive(bitmap.Contents(), column, deleted)
    ensures IndexAnswer(inverted.Contents(), size, q) - deleted == IndexAnswer(bitmap.Contents(), size, q) - deleted
  {
    AnswerIsTableScan(inverted.Contents(), column, deleted, size, q);
    AnswerIsTableScan(bitmap.Contents(), column, deleted, size, q);
  }

  /** An exclusive bound at the end of the type makes the inverted index return every posting. */
  lemma WrappedBoundReturnsEverything(ps: Postings, n: nat, q: Query)
    requires n > 0 && (q == LessThan(-Half(n)) || q == GreaterThan(Half(n) - 1))
    requires forall p :: p in ps ==> InRange(n, p.0)
    ensures Select(ps, q) == {}
    ensures Compared(ps, n, q) == set p | p in ps :: p.1
  {
    var b := ScanBounds(n, q);
    assert b == (-Half(n), Half(n) - 1);
    forall p | p in ps ensures p.1 in Compared(ps, n, q) {
      assert Satisfies(Range(b.0, true, b.1, true), p.0);
    }
  }

  // Pages of the two kinds of index.

  lemma {:induction false} SkipOnly(p: Page, docids: seq<nat>)
    requires 0 <= p.skip <= |docids|
    ensures VisitAll(p, docids, 0).found == p.found + Elements(docids[p.skip..], |docids|)
  {
    VisitAllSkips(p, docids, 0);
    var rest := docids[p.skip..];
    VisitAllNoPaging(p.(skip := 0), rest);
    ElementsAreFirst(rest, |docids|);
    assert rest[..|rest|] == rest;
    assert (set d | d in rest) == Elements(rest, |docids|);
  }

  lemma {:induction false} SkipAll(p: Page, docids: seq<nat>, limit: int)
    requires p.skip >= |docids| && p.found == {}
    ensures VisitAll(p, docids, limit).found == {}
    decreases docids
  {
    if docids != [] { SkipAll(Visit(p, docids[0], limit), docids[1..], limit); }
  }

  lemma RisingTail(a: seq<nat>, d: nat)
    requires Rising(a) && a != []
    ensures Rising(a[1..]) && (d in a[1..] <==> d in a && d != a[0]) && (d in a ==> a[0] <= d)
  {
    if d in a {
      var i :| 0 <= i < |a| && a[i] == d;
      if i > 0 { assert a[1..][i - 1] == d; }
    }
  }

  lemma {:induction false} RisingUnique(a: seq<nat>, b: seq<nat>)
    requires Rising(a) && Rising(b) && forall d :: d in a <==> d in b
    ensures a == b
  {
    assert (a != [] ==> a[0] in b) && (b != [] ==> b[0] in a);
    if a != [] {
      RisingTail(a, b[0]);
      RisingTail(b, a[0]);
      forall d ensures d in a[1..] <==> d in b[1..] {
        RisingTail(a, d);
        RisingTail(b, d);
      }
      RisingUnique(a[1..], b[1..]);
      assert a == [a[0]] + a[1..] && b == [b[0]] + b[1..];
    }
  }

  /** A cut in docid order takes every docid below one it takes. */
  lemma LowerIsTaken(docids: seq<nat>, n: nat, x: nat, y: nat)
    requires Rising(docids) && x in Elements(docids, n) && y in docids && y < x
    ensures y in Elements(docids, n)
  {
    ElementsAreFirst(docids, n);
    var k := if n < |docids| then n else |docids|;
    var i :| 0 <= i < k && docids[..k][i] == x;
    var j :| 0 <= j < |docids| && docids[j] == y;
    assert j < i && docids[..k][j] == y;
  }

  lemma SelectedDocids(ps: Postings, q: Query, list: seq<(int, nat)>)
    requires Lists(list, ps, q)
    ensures forall d :: d in Seconds(list) <==> d in Select(ps, q)
  {
    forall d | d in Select(ps, q) ensures d in Seconds(list) {
      var p :| p in ps && Satisfies(q, p.0) && p.1 == d;
      var i :| 0 <= i < |list| && list[i] == p;
      assert Seconds(list)[i] == d;
    }
    forall d | d in Seconds(list) ensures d in Select(ps, q) {
      var i :| 0 <= i < |list| && Seconds(list)[i] == d;
      assert list[i] in list;
    }
  }

  lemma RisingPagesAgree(docids: seq<nat>, s: set<nat>, offset: nat, limit: nat)
    requires Rising(docids) && forall d :: d in docids <==> d in s
    ensures VisitAll(Page({}, offset), docids, limit).found == PageOf(s, offset, limit)
  {
    DocidsRise(s);
    forall d ensures d in Docids(s) <==> d in s { DocidsAreThose(s, d); }
    RisingUnique(docids, Docids(s));
    if offset >= |docids| && offset > 0 {
      SkipAll(Page({}, offset), docids, limit);
    } else if limit > 0 {
      PageIsSlice(docids, offset, limit);
      if docids == [] { assert docids[offset..] == []; }
    } else {
      SkipOnly(Page({}, offset), docids);
      ElementsAreFirst(docids[offset..], |docids|);
      ElementsAreFirst(docids[offset..], |docids[offset..]|);
      assert Elements(docids[offset..], |docids|) == Elements(docids[offset..], |docids[offset..]|);
      if offset == 0 {
        assert docids[0..] == docids && docids[..|docids|] == docids;
        assert Elements(docids, |docids|) == s;
      }
    }
  }

  /** The first page in docid order that holds x holds every y below it. */
  lemma FirstPageIsClosed(s: set<nat>, n: nat, x: nat, y: nat)
    requires n > 0 && y in s && y < x
    ensures x in PageOf(s, 0, n) ==> y in PageOf(s, 0, n)
  {
    DocidsRise(s);
    DocidsAreThose(s, y);
    var cut := Docids(s)[0..];
    assert cut == Docids(s);
    if x in Elements(cut, n) { LowerIsTaken(cut, n, x, y); }
  }

  /** A pair out of docid order shows on the page that ends between the two. */
  lemma UnsortedPageDiffers(docids: seq<nat>, s: set<nat>, i: nat, j: nat)
    requires forall a, b :: 0 <= a < b < |docids| ==> docids[a] != docids[b]
    requires i < j < |docids| && docids[j] < docids[i] && docids[j] in s
    ensures VisitAll(Page({}, 0), docids, i + 1).found != PageOf(s, 0, i + 1)
  {
    PageIsSlice(docids, 0, i + 1);
    assert docids[0..] == docids;
    ElementsAreFirst(docids, i + 1);
    assert docids[..i + 1][i] == docids[i];
    assert docids[j] !in docids[..i + 1];
    FirstPageIsClosed(s, i + 1, docids[i], docids[j]);
  }

  /**
   * An inverted index pages by value and a bitmap index by docid. With one value per docid all their
   * pages agree if and only if the selected docids rise with their values.
   */
  lemma PagesAgreeIff(ps: Postings, q: Query, list: seq<(int, nat)>)
    requires Lists(list, ps, q) && forall a, b :: a in ps && b in ps && a.1 == b.1 ==> a == b
    ensures (forall offset: nat, limit: nat ::
               VisitAll(Page({}, offset), Seconds(list), limit).found == PageOf(Select(ps, q), offset, limit))
            <==> Rising(Seconds(list))
  {
    var docids, s := Seconds(list), Select(ps, q);
    SelectedDocids(ps, q, list);
    if Rising(docids) {
      forall offset: nat, limit: nat
          ensures VisitAll(Page({}, offset), docids, limit).found == PageOf(s, offset, limit) {
        RisingPagesAgree(docids, s, offset, limit);
      }
    } else {
      forall a, b | 0 <= a < b < |docids| ensures docids[a] != docids[b] {
        assert list[a] in ps && list[b] in ps && Before(list[a], list[b]);
      }
      var i, j :| 0 <= i < j < |docids| && docids[i] >= docids[j];
      assert docids[j] in docids;
      UnsortedPageDiffers(docids, s, i, j);
    }
  }
}
