/**
 * InvertedIndex (one field) and CompositeIndex (two or more): one RocksDB key per
 * (values, docid), maintained document by document and queried by ordered scans.
 */
module InvertedIndexes {
  import opened Bytes
  import opened KeyLayout
  import opened ScalarStore
  import opened ScalarQuery
  import opened Tables
  import opened Paging

  function DocidOf(k: ByteString): nat {
    if |k| < 8 then 0 else FromBigEndian(k[|k| - 8..])
  }

  function DocidsOf(ks: seq<ByteString>): seq<nat> {
    seq(|ks|, i requires 0 <= i < |ks| => DocidOf(ks[i]))
  }

  /**
   * Which keys a scan takes: ScanRange those not below lower and, on lower's length,
   * not above upper; In those that start with a value's prefix.
   */
  datatype Scan = Between(lower: ByteString, upper: ByteString) | StartingWith(prefix: ByteString)

  predicate Accepts(scan: Scan, k: ByteString) {
    match scan
    case Between(lower, upper) => AtMost(lower, k) && AtMost(Take(k, |lower|), upper)
    case StartingWith(prefix) => prefix <= k
  }

  /** The accepted keys, in order. */
  function Hits(ks: seq<ByteString>, scan: Scan): seq<ByteString> {
    if ks == [] then []
    else if Accepts(scan, ks[0]) then [ks[0]] + Hits(ks[1..], scan)
    else Hits(ks[1..], scan)
  }

  lemma {:induction false} HitsAreAccepted(ks: seq<ByteString>, scan: Scan, k: ByteString)
    ensures k in Hits(ks, scan) <==> k in ks && Accepts(scan, k)
  {
    if ks != [] {
      HitsAreAccepted(ks[1..], scan, k);
      assert k in ks <==> k == ks[0] || k in ks[1..];
    }
  }

  lemma {:induction false} HitsNone(ks: seq<ByteString>, scan: Scan)
    requires forall i :: 0 <= i < |ks| ==> !Accepts(scan, ks[i])
    ensures Hits(ks, scan) == []
  {
    if ks != [] { HitsNone(ks[1..], scan); }
  }

  lemma {:induction false} HitsSkip(ks: seq<ByteString>, scan: Scan, n: nat)
    requires n <= |ks|
    requires forall i :: 0 <= i < n ==> !Accepts(scan, ks[i])
    ensures Hits(ks, scan) == Hits(ks[n..], scan)
  {
    if n > 0 {
      HitsSkip(ks[1..], scan, n - 1);
      assert ks[1..][n - 1..] == ks[n..];
    } else {
      assert ks[0..] == ks;
    }
  }

  /** The page a scan over ks leaves, starting from page p. */
  function Scanned(p: Page, ks: seq<ByteString>, scan: Scan, limit: int): Page {
    VisitAll(p, DocidsOf(Hits(ks, scan)), limit)
  }

  lemma ScannedStep(p: Page, it: seq<ByteString>, pos: nat, scan: Scan, limit: int)
    requires pos < |it| && Accepts(scan, it[pos])
    ensures Scanned(p, it[pos..], scan, limit) == Scanned(Visit(p, DocidOf(it[pos]), limit), it[pos + 1..], scan, limit)
  {
    var rest := Hits(it[pos + 1..], scan);
    assert it[pos..][1..] == it[pos + 1..];
    assert Hits(it[pos..], scan) == [it[pos]] + rest;
    assert DocidsOf([it[pos]] + rest) == [DocidOf(it[pos])] + DocidsOf(rest);
    assert ([DocidOf(it[pos])] + DocidsOf(rest))[1..] == DocidsOf(rest);
  }

  /** Once a scan's stop condition holds, no later key of the sorted iterator is accepted. */
  lemma ScannedStop(p: Page, it: seq<ByteString>, pos: nat, scan: Scan, limit: int)
    requires StrictlySorted(it) && pos < |it|
    requires scan.Between? ==> Less(scan.upper, Take(it[pos], |scan.lower|))
    requires scan.StartingWith? ==> AtMost(scan.prefix, it[pos]) && !(scan.prefix <= it[pos])
    ensures Scanned(p, it[pos..], scan, limit) == p
  {
    var k := it[pos];
    forall i | 0 <= i < |it[pos..]| ensures !Accepts(scan, it[pos..][i]) {
      var j := it[pos + i];
      if i > 0 { StopsAt(scan, k, j); } else { LessIrreflexive(k); StopsAt(scan, k, j); }
    }
    HitsNone(it[pos..], scan);
  }

  lemma StopsAt(scan: Scan, k: ByteString, j: ByteString)
    requires Less(k, j) || k == j
    requires scan.Between? ==> Less(scan.upper, Take(k, |scan.lower|))
    requires scan.StartingWith? ==> AtMost(scan.prefix, k) && !(scan.prefix <= k)
    ensures !Accepts(scan, j)
  {
    if Less(k, j) { LessAsymmetric(k, j); } else { LessIrreflexive(k); }
    match scan
    case Between(lower, upper) =>
      TakeMonotone(k, j, |lower|);
      if AtMost(Take(j, |lower|), upper) {
        AtMostTransitive(Take(k, |lower|), Take(j, |lower|), upper);
      }
    case StartingWith(prefix) =>
      PrefixRangeExact(prefix, j);
      PrefixRangeExact(prefix, k);
      if prefix <= j && Advanced(prefix) != [] { AtMostLess(k, j, Advanced(prefix)); }
  }

  lemma ScannedSeek(p: Page, it: seq<ByteString>, pos: nat, scan: Scan, limit: int)
    requires pos <= |it|
    requires forall i :: 0 <= i < pos ==> Less(it[i], if scan.Between? then scan.lower else scan.prefix)
    ensures Scanned(p, it, scan, limit) == Scanned(p, it[pos..], scan, limit)
  {
    forall i | 0 <= i < pos ensures !Accepts(scan, it[i]) {
      if scan.StartingWith? && scan.prefix <= it[i] { PrefixAtMost(scan.prefix, it[i]); }
    }
    HitsSkip(it, scan, pos);
  }

  /** One turn of the iterator loop: past the upper bound, full, or one more key. */
  lemma ScanTurn(page: Page, it: seq<ByteString>, pos: nat, lower: ByteString, upper: ByteString, limit: int)
    requires StrictlySorted(it) && pos < |it| && AtMost(lower, it[pos])
    ensures var rest := Scanned(page, it[pos..], Between(lower, upper), limit);
            if Less(upper, Take(it[pos], |lower|)) || Full(page, limit) then rest == page
            else rest == Scanned(Visit(page, DocidOf(it[pos]), limit), it[pos + 1..], Between(lower, upper), limit)
  {
    var scan := Between(lower, upper);
    if Less(upper, Take(it[pos], |lower|)) {
      ScannedStop(page, it, pos, scan, limit);
    } else if Full(page, limit) {
      FullStays(page, DocidsOf(Hits(it[pos..], scan)), limit);
    } else {
      ScannedStep(page, it, pos, scan, limit);
    }
  }

  /** Each key under the field's header is a key of this field. */
  ghost predicate FieldClean(ws: Widths, keys: set<ByteString>, f: nat)
    requires f < |ws|
  {
    forall k :: k in keys && Header([f]) <= k ==>
      exists v, d: nat :: InRange(ws[f], v) && DocidOk(d) && k == IndexKey(ws, [f], [v], d)
  }

  lemma HeaderIsNoMarker(ws: Widths, f: nat, k: ByteString, m: ByteString)
    requires f < |ws| && Header([f]) <= k
    ensures MarkerKey(m) != k
  {
    FieldKeyFirstByte(f);
    assert Header([f])[0] == FieldKey(f)[0];
    assert MarkerKey(m)[0] == 0xFE;
  }

  lemma HeaderFindsField(ws: Widths, f: nat, e: Entry)
    requires f < |ws| && EntryOk(ws, e) && Header([f]) <= EntryKey(ws, e)
    ensures |e.vals| == 1 && InRange(ws[f], e.vals[0]) && DocidOk(e.docid)
              && EntryKey(ws, e) == IndexKey(ws, [f], [e.vals[0]], e.docid)
  {
    IndexKeyParts(ws, e.slot, e.vals, e.docid);
    HeaderPrefixFree([f], e.slot, Tail(ws, e.slot, e.vals, e.docid));
    assert e.vals == [e.vals[0]];
  }

  lemma RepresentedIsClean(ws: Widths, keys: set<ByteString>, entries: set<Entry>, markers: set<ByteString>, f: nat)
    requires Represents(ws, keys, entries, markers) && f < |ws|
    ensures FieldClean(ws, keys, f)
  {
    forall k | k in keys && Header([f]) <= k
      ensures exists v, d: nat :: InRange(ws[f], v) && DocidOk(d) && k == IndexKey(ws, [f], [v], d)
    {
      forall m | m in markers ensures MarkerKey(m) != k { HeaderIsNoMarker(ws, f, k, m); }
      var e :| e in entries && EntryOk(ws, e) && EntryKey(ws, e) == k;
      HeaderFindsField(ws, f, e);
    }
  }

  /** (v, d) is posted exactly when its key is stored. */
  ghost predicate Posted(ws: Widths, keys: set<ByteString>, f: nat, v: int, d: nat)
    requires f < |ws|
  {
    InRange(ws[f], v) && DocidOk(d) && IndexKey(ws, [f], [v], d) in keys
  }

  ghost predicate ArePostings(ws: Widths, keys: set<ByteString>, f: nat, ps: Postings)
    requires f < |ws|
  {
    forall v, d: nat :: (v, d) in ps <==> Posted(ws, keys, f, v, d)
  }

  /** Scanning between two value prefixes accepts exactly the keys with a value between them. */
  lemma ScanAcceptsValues(ws: Widths, f: nat, lo: int, hi: int, v: int, d: nat)
    requires f < |ws| && InRange(ws[f], lo) && InRange(ws[f], hi) && InRange(ws[f], v) && DocidOk(d)
    ensures Accepts(Between(ValuePrefix(ws, f, lo), ValuePrefix(ws, f, hi)), IndexKey(ws, [f], [v], d)) <==>
              lo <= v <= hi
  {
    var n := ws[f];
    var k, a, b, p := IndexKey(ws, [f], [v], d), ValuePrefix(ws, f, lo), ValuePrefix(ws, f, hi), ValuePrefix(ws, f, v);
    assert k == p + BigEndian(8, d);
    assert Take(k, |a|) == p;
    ValuePrefixOrder(ws, f, v, hi);
    ValuePrefixOrder(ws, f, hi, v);
    ValuePrefixOrder(ws, f, lo, v);
    ValuePrefixOrder(ws, f, v, lo);
    if lo <= v {
      PrefixAtMost(p, k);
      AtMostTransitive(a, p, k);
    } else if AtMost(a, k) {
      assert Take(a, |a|) == a;
      TakeMonotone(a, k, |a|);
    }
  }

  lemma ValuePrefixOrder(ws: Widths, f: nat, u: int, v: int)
    requires f < |ws| && InRange(ws[f], u) && InRange(ws[f], v)
    ensures Less(ValuePrefix(ws, f, u), ValuePrefix(ws, f, v)) <==> u < v
  {
    var h, s, t := Header([f]), Sortable(ws[f], u), Sortable(ws[f], v);
    assert ValuePrefix(ws, f, u) == h + (s + [SEPARATOR]) && ValuePrefix(ws, f, v) == h + (t + [SEPARATOR]);
    LessCancel(h, s + [SEPARATOR], t + [SEPARATOR]);
    LessSnoc(s, t, SEPARATOR, SEPARATOR);
    SortableOrder(ws[f], u, v);
  }

  /** A scan between two value prefixes of a field stays inside that field. */
  lemma ScanStaysInField(ws: Widths, f: nat, lo: int, hi: int, k: ByteString)
    requires f < |ws| && InRange(ws[f], lo) && InRange(ws[f], hi)
    requires Accepts(Between(ValuePrefix(ws, f, lo), ValuePrefix(ws, f, hi)), k)
    ensures Header([f]) <= k
  {
    var h := Header([f]);
    var x, y := Sortable(ws[f], lo) + [SEPARATOR], Sortable(ws[f], hi) + [SEPARATOR];
    var a, b := ValuePrefix(ws, f, lo), ValuePrefix(ws, f, hi);
    assert a == h + x && b == h + y;
    TakeMonotone(a, k, |a|);
    assert Take(a, |a|) == a;
    SandwichPrefix(h, x, y, Take(k, |a|));
  }

  /** In's prefix scan accepts exactly the keys with the asked value. */
  lemma PrefixAcceptsValue(ws: Widths, f: nat, x: int, v: int, d: nat)
    requires f < |ws| && InRange(ws[f], x) && InRange(ws[f], v) && DocidOk(d)
    ensures ValuePrefix(ws, f, x) <= IndexKey(ws, [f], [v], d) <==> v == x
    ensures Header([f]) <= ValuePrefix(ws, f, x)
  {
    var p, q := ValuePrefix(ws, f, x), ValuePrefix(ws, f, v);
    var k := IndexKey(ws, [f], [v], d);
    assert k == q + BigEndian(8, d);
    assert k[..|p|] == q;
    if p <= k {
      assert p == q;
      ValuePrefixOrder(ws, f, x, v);
      ValuePrefixOrder(ws, f, v, x);
      LessIrreflexive(p);
    }
  }

  /** The postings a field's keys stand for. */
  ghost function PostingsOf(ws: Widths, keys: set<ByteString>, f: nat): (ps: Postings)
    requires f < |ws| && FieldClean(ws, keys, f)
    ensures ArePostings(ws, keys, f, ps)
  {
    var ps := set k | k in keys && Header([f]) <= k :: PairOf(ws, keys, f, k);
    assert ArePostings(ws, keys, f, ps) by {
      forall v, d: nat ensures (v, d) in ps <==> Posted(ws, keys, f, v, d) {
        if Posted(ws, keys, f, v, d) {
          var k := IndexKey(ws, [f], [v], d);
          IndexKeyParts(ws, [f], [v], d);
          var p := PairOf(ws, keys, f, k);
          IndexKeyInjective(ws, [f], [v], d, [f], [p.0], p.1);
          assert [v][0] == [p.0][0];
        }
      }
    }
    ps
  }

  ghost function PairOf(ws: Widths, keys: set<ByteString>, f: nat, k: ByteString): (p: (int, nat))
    requires f < |ws| && FieldClean(ws, keys, f) && k in keys && Header([f]) <= k
    ensures InRange(ws[f], p.0) && DocidOk(p.1) && k == IndexKey(ws, [f], [p.0], p.1)
  {
    var v, d: nat :| InRange(ws[f], v) && DocidOk(d) && k == IndexKey(ws, [f], [v], d);
    (v, d)
  }

  /** The scan takes exactly this field's keys whose value satisfies the query. */
  ghost predicate Implements(ws: Widths, f: nat, scan: Scan, q: Query)
    requires f < |ws|
  {
    && (forall k :: Accepts(scan, k) ==> Header([f]) <= k)
    && (forall v, d: nat :: InRange(ws[f], v) && DocidOk(d) ==>
          (Accepts(scan, IndexKey(ws, [f], [v], d)) <==> Satisfies(q, v)))
  }

  lemma HitIsPosting(ws: Widths, keys: set<ByteString>, f: nat, scan: Scan, q: Query, k: ByteString)
    requires f < |ws| && FieldClean(ws, keys, f) && Implements(ws, f, scan, q)
    requires k in keys && Accepts(scan, k)
    ensures DocidOf(k) in Select(PostingsOf(ws, keys, f), q)
  {
    var p := PairOf(ws, keys, f, k);
    DocidAtTail(ws, [f], [p.0], p.1);
    assert Posted(ws, keys, f, p.0, p.1);
    assert (p.0, p.1) in PostingsOf(ws, keys, f);
  }

  lemma PostingIsHit(ws: Widths, keys: set<ByteString>, f: nat, scan: Scan, q: Query, v: int, d: nat)
    requires f < |ws| && FieldClean(ws, keys, f) && Implements(ws, f, scan, q)
    requires (v, d) in PostingsOf(ws, keys, f) && Satisfies(q, v)
    ensures exists k :: k in keys && Accepts(scan, k) && DocidOf(k) == d
  {
    assert Posted(ws, keys, f, v, d);
    DocidAtTail(ws, [f], [v], d);
    assert DocidOf(IndexKey(ws, [f], [v], d)) == d;
  }

  lemma HitsArePostings(ws: Widths, keys: set<ByteString>, f: nat, scan: Scan, q: Query, hits: seq<ByteString>)
    requires f < |ws| && FieldClean(ws, keys, f) && Implements(ws, f, scan, q)
    requires forall k :: k in hits <==> k in keys && Accepts(scan, k)
    ensures forall d: nat :: d in DocidsOf(hits) <==> d in Select(PostingsOf(ws, keys, f), q)
  {
    var ps := PostingsOf(ws, keys, f);
    forall d: nat | d in DocidsOf(hits) ensures d in Select(ps, q) {
      var i :| 0 <= i < |hits| && DocidsOf(hits)[i] == d;
      assert hits[i] in hits;
      HitIsPosting(ws, keys, f, scan, q, hits[i]);
    }
    forall d: nat | d in Select(ps, q) ensures d in DocidsOf(hits) {
      var p :| p in ps && Satisfies(q, p.0) && p.1 == d;
      PostingIsHit(ws, keys, f, scan, q, p.0, p.1);
      var k :| k in keys && Accepts(scan, k) && DocidOf(k) == d;
      assert k in hits;
      var i :| 0 <= i < |hits| && hits[i] == k;
      assert DocidsOf(hits)[i] == d;
    }
  }

  /** An unpaged scan finds the postings that satisfy its query. */
  lemma ScanFindsPostings(ws: Widths, keys: set<ByteString>, it: seq<ByteString>, f: nat, scan: Scan, q: Query,
                          found: set<nat>)
    requires f < |ws| && FieldClean(ws, keys, f) && Implements(ws, f, scan, q)
    requires forall k :: k in it <==> k in keys
    ensures Scanned(Page(found, 0), it, scan, 0) == Page(found + Select(PostingsOf(ws, keys, f), q), 0)
  {
    var hits := Hits(it, scan);
    forall k ensures k in hits <==> k in it && Accepts(scan, k) { HitsAreAccepted(it, scan, k); }
    HitsArePostings(ws, keys, f, scan, q, hits);
    VisitAllNoPaging(Page(found, 0), DocidsOf(hits));
    assert (set d | d in DocidsOf(hits)) == Select(PostingsOf(ws, keys, f), q);
  }

  // The order a scan meets postings in.

  predicate Before(p: (int, nat), q: (int, nat)) {
    p.0 < q.0 || (p.0 == q.0 && p.1 < q.1)
  }

  /** The postings that satisfy the query, by value and then docid. */
  ghost predicate Lists(list: seq<(int, nat)>, ps: Postings, q: Query) {
    && (forall i, j :: 0 <= i < j < |list| ==> Before(list[i], list[j]))
    && (forall p :: p in list <==> p in ps && Satisfies(q, p.0))
  }

  function Seconds(list: seq<(int, nat)>): seq<nat> {
    seq(|list|, i requires 0 <= i < |list| => list[i].1)
  }

  lemma KeysByPosting(ws: Widths, f: nat, u: int, c: nat, v: int, d: nat)
    requires f < |ws| && InRange(ws[f], u) && InRange(ws[f], v) && DocidOk(c) && DocidOk(d)
    ensures Less(IndexKey(ws, [f], [u], c), IndexKey(ws, [f], [v], d)) <==> Before((u, c), (v, d))
  {
    var a, b := ValuePrefix(ws, f, u), ValuePrefix(ws, f, v);
    LessSplit(a, BigEndian(8, c), b, BigEndian(8, d));
    ValuePrefixOrder(ws, f, u, v);
    ValuePrefixOrder(ws, f, v, u);
    BigEndianOrder(8, c, d);
    if u == v { LessIrreflexive(a); }
  }

  lemma {:induction false} HitsStaySorted(ks: seq<ByteString>, scan: Scan)
    requires StrictlySorted(ks)
    ensures StrictlySorted(Hits(ks, scan))
  {
    if ks != [] {
      var rest := Hits(ks[1..], scan);
      HitsStaySorted(ks[1..], scan);
      forall i | 0 <= i < |rest| ensures Less(ks[0], rest[i]) {
        assert rest[i] in rest;
        HitsAreAccepted(ks[1..], scan, rest[i]);
      }
    }
  }

  ghost function PairsOf(ws: Widths, keys: set<ByteString>, f: nat, hits: seq<ByteString>): (r: seq<(int, nat)>)
    requires f < |ws| && FieldClean(ws, keys, f) && forall i :: 0 <= i < |hits| ==>
               hits[i] in keys && Header([f]) <= hits[i]
    ensures |r| == |hits| && forall i :: 0 <= i < |hits| ==> r[i] == PairOf(ws, keys, f, hits[i])
  {
    seq(|hits|, i requires 0 <= i < |hits| => PairOf(ws, keys, f, hits[i]))
  }

  lemma PairsInOrder(ws: Widths, keys: set<ByteString>, f: nat, hits: seq<ByteString>)
    requires f < |ws| && FieldClean(ws, keys, f) && StrictlySorted(hits)
    requires forall i :: 0 <= i < |hits| ==> hits[i] in keys && Header([f]) <= hits[i]
    ensures var list := PairsOf(ws, keys, f, hits);
            && (forall i, j :: 0 <= i < j < |list| ==> Before(list[i], list[j]))
            && DocidsOf(hits) == Seconds(list)
  {
    var list := PairsOf(ws, keys, f, hits);
    forall i, j | 0 <= i < j < |list| ensures Before(list[i], list[j]) {
      KeysByPosting(ws, f, list[i].0, list[i].1, list[j].0, list[j].1);
    }
    forall i | 0 <= i < |hits| ensures DocidOf(hits[i]) == list[i].1 {
      DocidAtTail(ws, [f], [list[i].0], list[i].1);
    }
  }

  lemma PairIsPosting(ws: Widths, keys: set<ByteString>, f: nat, scan: Scan, q: Query, k: ByteString)
    requires f < |ws| && FieldClean(ws, keys, f) && Implements(ws, f, scan, q)
    requires k in keys && Accepts(scan, k) && Header([f]) <= k
    ensures var p := PairOf(ws, keys, f, k); p in PostingsOf(ws, keys, f) && Satisfies(q, p.0)
  {
    var p := PairOf(ws, keys, f, k);
    assert Posted(ws, keys, f, p.0, p.1);
  }

  lemma PostingHasKey(ws: Widths, keys: set<ByteString>, f: nat, scan: Scan, q: Query, p: (int, nat))
    requires f < |ws| && FieldClean(ws, keys, f) && Implements(ws, f, scan, q)
    requires p in PostingsOf(ws, keys, f) && Satisfies(q, p.0)
    ensures InRange(ws[f], p.0) && DocidOk(p.1)
    ensures var k := IndexKey(ws, [f], [p.0], p.1);
            k in keys && Accepts(scan, k) && Header([f]) <= k && PairOf(ws, keys, f, k) == p
  {
    assert Posted(ws, keys, f, p.0, p.1);
    var k := IndexKey(ws, [f], [p.0], p.1);
    var r := PairOf(ws, keys, f, k);
    IndexKeyInjective(ws, [f], [p.0], p.1, [f], [r.0], r.1);
    assert [p.0][0] == [r.0][0];
  }

  /** The hits are the field's keys that the scan accepts. */
  ghost predicate AreHits(ws: Widths, keys: set<ByteString>, f: nat, scan: Scan, hits: seq<ByteString>)
    requires f < |ws|
  {
    && (forall k :: k in keys && Accepts(scan, k) ==> k in hits)
    && (forall i :: 0 <= i < |hits| ==> hits[i] in keys && Accepts(scan, hits[i]) && Header([f]) <= hits[i])
  }

  lemma PairIsSelected(ws: Widths, keys: set<ByteString>, f: nat, scan: Scan, q: Query, hits: seq<ByteString>,
                       p: (int, nat))
    requires f < |ws| && FieldClean(ws, keys, f) && Implements(ws, f, scan, q) && AreHits(ws, keys, f, scan, hits)
    requires p in PairsOf(ws, keys, f, hits)
    ensures p in PostingsOf(ws, keys, f) && Satisfies(q, p.0)
  {
    var i :| 0 <= i < |hits| && PairsOf(ws, keys, f, hits)[i] == p;
    PairIsPosting(ws, keys, f, scan, q, hits[i]);
  }

  lemma SelectedIsPair(ws: Widths, keys: set<ByteString>, f: nat, scan: Scan, q: Query, hits: seq<ByteString>,
                       p: (int, nat))
    requires f < |ws| && FieldClean(ws, keys, f) && Implements(ws, f, scan, q) && AreHits(ws, keys, f, scan, hits)
    requires p in PostingsOf(ws, keys, f) && Satisfies(q, p.0)
    ensures p in PairsOf(ws, keys, f, hits)
  {
    PostingHasKey(ws, keys, f, scan, q, p);
    var k := IndexKey(ws, [f], [p.0], p.1);
    assert k in hits;
    var i :| 0 <= i < |hits| && hits[i] == k;
    assert PairsOf(ws, keys, f, hits)[i] == p;
  }

  /** A scan meets the postings of its query by value and then docid. */
  lemma ScanMeetsInOrder(ws: Widths, keys: set<ByteString>, it: seq<ByteString>, f: nat, scan: Scan, q: Query)
    returns (list: seq<(int, nat)>)
    requires f < |ws| && FieldClean(ws, keys, f) && Implements(ws, f, scan, q)
    requires StrictlySorted(it) && forall k :: k in it <==> k in keys
    ensures Lists(list, PostingsOf(ws, keys, f), q) && DocidsOf(Hits(it, scan)) == Seconds(list)
  {
    var hits := Hits(it, scan);
    forall k ensures k in hits <==> k in it && Accepts(scan, k) { HitsAreAccepted(it, scan, k); }
    HitsStaySorted(it, scan);
    forall i | 0 <= i < |hits| ensures hits[i] in keys && Header([f]) <= hits[i] { assert hits[i] in hits; }
    list := PairsOf(ws, keys, f, hits);
    PairsInOrder(ws, keys, f, hits);
    forall p | p in list ensures p in PostingsOf(ws, keys, f) && Satisfies(q, p.0) {
      PairIsSelected(ws, keys, f, scan, q, hits, p);
    }
    forall p | p in PostingsOf(ws, keys, f) && Satisfies(q, p.0) ensures p in list {
      SelectedIsPair(ws, keys, f, scan, q, hits, p);
    }
  }

  /** The page a scan of the query's postings leaves. */
  ghost predicate PagedScan(ps: Postings, q: Query, offset: int, limit: int, page: Page) {
    exists list :: Lists(list, ps, q) && page == VisitAll(Page({}, offset), Seconds(list), limit)
  }

  lemma {:induction false} ListsUnique(a: seq<(int, nat)>, b: seq<(int, nat)>)
    requires forall i, j :: 0 <= i < j < |a| ==> Before(a[i], a[j])
    requires forall i, j :: 0 <= i < j < |b| ==> Before(b[i], b[j])
    requires forall p :: p in a <==> p in b
    ensures a == b
  {
    assert (a != [] ==> a[0] in b) && (b != [] ==> b[0] in a);
    if a != [] {
      var i :| 0 <= i < |b| && b[i] == a[0];
      var j :| 0 <= j < |a| && a[j] == b[0];
      assert a[0] == b[0];
      forall p ensures p in a[1..] <==> p in b[1..] {
        if p in a[1..] { assert p in b && p != a[0]; }
        if p in b[1..] { assert p in a && p != b[0]; }
      }
      ListsUnique(a[1..], b[1..]);
      assert a == [a[0]] + a[1..] && b == [b[0]] + b[1..];
    }
  }

  /** When each docid has one value, offset and limit give that slice of the postings by value and docid. */
  lemma PagedScanIsSlice(ps: Postings, q: Query, offset: nat, limit: nat, page: Page, list: seq<(int, nat)>)
    requires PagedScan(ps, q, offset, limit, page) && Lists(list, ps, q) && offset <= |list| && limit > 0
    requires forall a, b :: a in ps && b in ps && a.1 == b.1 ==> a == b
    ensures page.found == Elements(Seconds(list)[offset..], limit)
  {
    var l :| Lists(l, ps, q) && page == VisitAll(Page({}, offset), Seconds(l), limit);
    ListsUnique(l, list);
    forall i, j | 0 <= i < j < |list| ensures Seconds(list)[i] != Seconds(list)[j] {
      assert list[i] in ps && list[j] in ps && Before(list[i], list[j]);
    }
    PageIsSlice(Seconds(list), offset, limit);
  }

  lemma BetweenImplements(ws: Widths, f: nat, lo: int, hi: int)
    requires f < |ws| && InRange(ws[f], lo) && InRange(ws[f], hi)
    ensures Implements(ws, f, Between(ValuePrefix(ws, f, lo), ValuePrefix(ws, f, hi)), Range(lo, true, hi, true))
  {
    var scan := Between(ValuePrefix(ws, f, lo), ValuePrefix(ws, f, hi));
    forall k | Accepts(scan, k) ensures Header([f]) <= k { ScanStaysInField(ws, f, lo, hi, k); }
    forall v, d: nat | InRange(ws[f], v) && DocidOk(d)
      ensures Accepts(scan, IndexKey(ws, [f], [v], d)) <==> Satisfies(Range(lo, true, hi, true), v)
    {
      ScanAcceptsValues(ws, f, lo, hi, v, d);
    }
  }

  lemma StartingWithImplements(ws: Widths, f: nat, x: int)
    requires f < |ws| && InRange(ws[f], x)
    ensures Implements(ws, f, StartingWith(ValuePrefix(ws, f, x)), Equal(x))
  {
    var scan := StartingWith(ValuePrefix(ws, f, x));
    forall v, d: nat | InRange(ws[f], v) && DocidOk(d)
      ensures Accepts(scan, IndexKey(ws, [f], [v], d)) <==> Satisfies(Equal(x), v)
    {
      PrefixAcceptsValue(ws, f, x, v, d);
    }
    PrefixAcceptsValue(ws, f, x, x, 0);
  }

  /** b += offset on an n-byte signed integer: it wraps at the type's ends. */
  function Wrapped(n: nat, v: int): (r: int)
    requires n > 0 && -Half(n) - 1 <= v <= Half(n)
    ensures InRange(n, r)
  {
    if v < -Half(n) then v + 2 * Half(n) else if v >= Half(n) then v - 2 * Half(n) else v
  }

  predicate QueryOk(n: nat, q: Query)
    requires n > 0
  {
    match q
    case In(xs) => forall i :: 0 <= i < |xs| ==> InRange(n, xs[i])
    case NotIn(xs) => forall i :: 0 <= i < |xs| ==> InRange(n, xs[i])
    case Range(lo, _, hi, _) => InRange(n, lo) && InRange(n, hi)
    case _ => InRange(n, q.value)
  }

  predicate Ordering(q: Query) {
    q.Range? || q.LessThan? || q.LessEqual? || q.GreaterThan? || q.GreaterEqual?
  }

  function ScanLower(n: nat, lower: int, inclusive: bool): int
    requires n > 0 && InRange(n, lower)
  {
    if inclusive then lower else Wrapped(n, lower + 1)
  }

  function ScanUpper(n: nat, upper: int, inclusive: bool): int
    requires n > 0 && InRange(n, upper)
  {
    if inclusive then upper else Wrapped(n, upper - 1)
  }

  /** The inclusive bounds Range and the comparisons scan between, after AdjustDataTypeBoundary. */
  function ScanBounds(n: nat, q: Query): (b: (int, int))
    requires n > 0 && QueryOk(n, q) && Ordering(q)
    ensures InRange(n, b.0) && InRange(n, b.1)
  {
    match q
    case Range(lo, loInc, hi, hiInc) =>
      (ScanLower(n, lo, loInc), ScanUpper(n, hi, hiInc))
    case LessThan(x) => (-Half(n), Wrapped(n, x - 1))
    case LessEqual(x) => (-Half(n), x)
    case GreaterThan(x) => (Wrapped(n, x + 1), Half(n) - 1)
    case GreaterEqual(x) => (x, Half(n) - 1)
    case _ => (0, 0)
  }

  /** No exclusive bound sits at the end of the type it would be moved past. */
  predicate NoWrap(n: nat, q: Query)
    requires n > 0
  {
    match q
    case Range(lo, loInc, hi, hiInc) => (loInc || lo != Half(n) - 1) && (hiInc || hi != -Half(n))
    case LessThan(x) => x != -Half(n)
    case GreaterThan(x) => x != Half(n) - 1
    case _ => true
  }

  /** The scanned bounds mean the query if and only if no bound wrapped. */
  lemma ScanBoundsExact(n: nat, q: Query)
    requires n > 0 && QueryOk(n, q) && Ordering(q)
    ensures NoWrap(n, q) <==>
            forall v :: InRange(n, v) ==>
              (Satisfies(q, v) <==> Satisfies(Range(ScanBounds(n, q).0, true, ScanBounds(n, q).1, true), v))
  {
    var b := ScanBounds(n, q);
    if !NoWrap(n, q) {
      assert InRange(n, b.0) && !Satisfies(q, b.0);
      assert Satisfies(Range(b.0, true, b.1, true), b.0);
    }
  }

  lemma SelectSame(ps: Postings, n: nat, q: Query, r: Query)
    requires n > 0
    requires forall p :: p in ps ==> InRange(n, p.0)
    requires forall v :: InRange(n, v) ==> (Satisfies(q, v) <==> Satisfies(r, v))
    ensures Select(ps, q) == Select(ps, r)
  {
  }

  /** GenKeyPrefix(MinSortableValue) and GenKeyPrefix(MaxSortableValue). */
  function MinPrefix(ws: Widths, f: nat): (b: ByteString)
    requires f < |ws|
    ensures b == ValuePrefix(ws, f, -Half(ws[f]))
  {
    SortableExtremes(ws[f]);
    Header([f]) + MinSortable(ws[f]) + [SEPARATOR]
  }

  function MaxPrefix(ws: Widths, f: nat): (b: ByteString)
    requires f < |ws|
    ensures b == ValuePrefix(ws, f, Half(ws[f]) - 1)
  {
    SortableExtremes(ws[f]);
    Header([f]) + MaxSortable(ws[f]) + [SEPARATOR]
  }

  /** The pages In leaves, value after value. */
  ghost function ScannedValues(p: Page, it: seq<ByteString>, ws: Widths, f: nat, xs: seq<int>, limit: int): Page
    requires f < |ws| && forall i :: 0 <= i < |xs| ==> InRange(ws[f], xs[i])
  {
    if xs == [] then p
    else Scanned(ScannedValues(p, it, ws, f, xs[..|xs| - 1], limit), it,
        StartingWith(ValuePrefix(ws, f, xs[|xs| - 1])), limit)
  }

  lemma SelectInSnoc(ps: Postings, xs: seq<int>)
    requires xs != []
    ensures Select(ps, In(xs)) == Select(ps, In(xs[..|xs| - 1])) + Select(ps, Equal(xs[|xs| - 1]))
  {
    assert forall v :: v in xs <==> v in xs[..|xs| - 1] || v == xs[|xs| - 1];
  }

  lemma {:induction false} ValuesFindPostings(ws: Widths, keys: set<ByteString>, f: nat, xs: seq<int>)
    requires f < |ws| && FieldClean(ws, keys, f) && forall i :: 0 <= i < |xs| ==> InRange(ws[f], xs[i])
    ensures ScannedValues(Page({}, 0), Ordered(keys), ws, f, xs, 0) == Page(Select(PostingsOf(ws, keys, f), In(xs)), 0)
  {
    var ps := PostingsOf(ws, keys, f);
    if xs != [] {
      var init, x := xs[..|xs| - 1], xs[|xs| - 1];
      ValuesFindPostings(ws, keys, f, init);
      StartingWithImplements(ws, f, x);
      ScanFindsPostings(ws, keys, Ordered(keys), f, StartingWith(ValuePrefix(ws, f, x)), Equal(x),
          Select(ps, In(init)));
      SelectInSnoc(ps, xs);
    } else {
      assert Select(ps, In(xs)) == {};
    }
  }

  /** The docids In meets: value after value as asked, each value's by docid. */
  ghost predicate MeetsValues(ps: Postings, xs: seq<int>, docids: seq<nat>) {
    if xs == [] then docids == []
    else exists init, list ::
      MeetsValues(ps, xs[..|xs| - 1], init) && Lists(list, ps, Equal(xs[|xs| - 1])) && docids == init + Seconds(list)
  }

  lemma {:induction false} ValuesMetInOrder(ws: Widths, keys: set<ByteString>, f: nat, xs: seq<int>, p: Page,
                                            limit: int) returns (docids: seq<nat>)
    requires f < |ws| && FieldClean(ws, keys, f) && forall i :: 0 <= i < |xs| ==> InRange(ws[f], xs[i])
    ensures MeetsValues(PostingsOf(ws, keys, f), xs, docids)
    ensures ScannedValues(p, Ordered(keys), ws, f, xs, limit) == VisitAll(p, docids, limit)
    decreases xs
  {
    docids := [];
    if xs != [] {
      var x := xs[|xs| - 1];
      var init := ValuesMetInOrder(ws, keys, f, xs[..|xs| - 1], p, limit);
      StartingWithImplements(ws, f, x);
      var list := ScanMeetsInOrder(ws, keys, Ordered(keys), f, StartingWith(ValuePrefix(ws, f, x)), Equal(x));
      docids := init + Seconds(list);
      VisitAllConcat(p, init, Seconds(list), limit);
    }
  }

  /**
   * A range scan's answer: the page of the postings between the adjusted bounds; uncut, the query's
   * postings unless a bound wraps.
   */
  ghost predicate RangeAnswer(ps: Postings, n: nat, q: Query, offset: int, limit: int, page: Page)
    requires n > 0 && Ordering(q) && QueryOk(n, q)
  {
    && PagedScan(ps, Within(n, q), offset, limit, page)
    && (offset == 0 == limit ==> page.found == Compared(ps, n, q))
    && (offset == 0 == limit && NoWrap(n, q) ==> page.found == Select(ps, q))
  }

  class InvertedIndex {
    const table: Table
    const cf: ColumnFamily
    const slot: Slot

    constructor (table: Table, cf: ColumnFamily, slot: Slot)
      ensures this.table == table && this.cf == cf && this.slot == slot
    {
      this.table := table;
      this.cf := cf;
      this.slot := slot;
    }

    ghost predicate Valid()
      reads this, table
    {
      table.Valid() && SlotOk(table.ws, slot)
    }

    /** The key this document has in this index now. */
    ghost function KeyOf(docid: nat): ByteString
      requires Valid() && docid in table.rows
      reads this, table
    {
      ProjectOk(table.ws, table.rows[docid], slot);
      IndexKey(table.ws, slot, Project(table.rows[docid], slot), docid)
    }

    method AddDoc(docid: nat) returns (ret: int)
      requires Valid()
      modifies cf
      ensures ret == 0 <==> docid in table.rows
      ensures cf.keys == if docid in table.rows then old(cf.keys) + {KeyOf(docid)} else old(cf.keys)
    {
      var vals;
      ret, vals := table.GetFieldRawValues(docid, slot);
      if ret != 0 { return; }
      ProjectOk(table.ws, table.rows[docid], slot);
      cf.Put(IndexKey(table.ws, slot, vals, docid));
    }

    method DeleteDoc(docid: nat) returns (ret: int)
      requires Valid()
      modifies cf
      ensures ret == 0 <==> docid in table.rows
      ensures cf.keys == if docid in table.rows then old(cf.keys) - {KeyOf(docid)} else old(cf.keys)
    {
      var vals;
      ret, vals := table.GetFieldRawValues(docid, slot);
      if ret != 0 { return; }
      ProjectOk(table.ws, table.rows[docid], slot);
      cf.Delete(IndexKey(table.ws, slot, vals, docid));
    }

    /** Removes this index's keys: the guard on an empty upper bound never fires. */
    method DropAll() returns (ret: int)
      requires Valid()
      modifies cf
      ensures ret == 0
      ensures cf.keys == set k | k in old(cf.keys) && !(Header(slot) <= k)
    {
      var begin := Header(slot);
      var end := AdvancePrefix(begin);
      HeaderAdvances(slot);
      if end == [] { return -1; }
      ghost var before := cf.keys;
      cf.DeleteRange(begin, end);
      forall k | k in before ensures InDropRange(slot, k) <==> Header(slot) <= k {
        PrefixRangeExact(Header(slot), k);
      }
      ret := 0;
    }

    /** Seek and scan; offset skips keys, limit stops the scan. */
    method ScanRange(lower: ByteString, upper: ByteString, offset: int, limit: int) returns (page: Page)
      ensures page == Scanned(Page({}, offset), Ordered(cf.keys), Between(lower, upper), limit)
    {
      var it := cf.NewIterator();
      page := ScanBetween(it, lower, upper, Page({}, offset), limit);
    }

    /** The iterator loop of ScanRange. */
    static method ScanBetween(it: seq<ByteString>, lower: ByteString, upper: ByteString, start: Page, limit: int)
      returns (page: Page)
      requires StrictlySorted(it)
      ensures page == Scanned(start, it, Between(lower, upper), limit)
    {
      var pos := Seek(it, lower);
      page := start;
      ScannedSeek(page, it, pos, Between(lower, upper), limit);
      while pos < |it|
        invariant pos <= |it| && forall i :: pos <= i < |it| ==> AtMost(lower, it[i])
        invariant StillScans(page, it, pos, lower, upper, limit, start)
      {
        ScanTurn(page, it, pos, lower, upper, limit);
        if Less(upper, Take(it[pos], |lower|)) {
          return;
        }
        if page.skip <= 0 && limit > 0 && |page.found| >= limit {
          return;
        }
        page := Visit(page, DocidOf(it[pos]), limit);
        pos := pos + 1;
      }
      assert it[pos..] == [];
    }

    /** What is left to scan still comes to the whole scan's page. */
    static ghost predicate StillScans(page: Page, it: seq<ByteString>, pos: nat, lower: ByteString, upper: ByteString,
                                      limit: int, start: Page)
      requires pos <= |it|
    {
      Scanned(page, it[pos..], Between(lower, upper), limit) == Scanned(start, it, Between(lower, upper), limit)
    }

    /** One value's prefix scan inside In. */
    static method ScanPrefix(it: seq<ByteString>, prefix: ByteString, start: Page, limit: int) returns (page: Page)
      requires StrictlySorted(it)
      ensures page == Scanned(start, it, StartingWith(prefix), limit)
    {
      ghost var scan := StartingWith(prefix);
      var pos := Seek(it, prefix);
      page := start;
      ScannedSeek(page, it, pos, scan, limit);
      while pos < |it| && prefix <= it[pos]
        invariant pos <= |it|
        invariant forall i :: pos <= i < |it| ==> AtMost(prefix, it[i])
        invariant Scanned(page, it[pos..], scan, limit) == Scanned(start, it, scan, limit)
      {
        if page.skip <= 0 && limit > 0 && |page.found| >= limit {
          FullStays(page, DocidsOf(Hits(it[pos..], scan)), limit);
          return;
        }
        ScannedStep(page, it, pos, scan, limit);
        page := Visit(page, DocidOf(it[pos]), limit);
        pos := pos + 1;
      }
      if pos < |it| { ScannedStop(page, it, pos, scan, limit); } else { assert it[pos..] == []; }
    }

    /** A single-field index whose header owns its keys. */
    ghost predicate Queryable()
      reads this, table, cf
    {
      Valid() && |slot| == 1 && FieldClean(table.ws, cf.keys, slot[0])
    }

    ghost function Contents(): Postings
      requires Queryable()
      reads this, table, cf
    {
      PostingsOf(table.ws, cf.keys, slot[0])
    }

    method In(values: seq<int>, offset: int, limit: int) returns (page: Page)
      requires Queryable() && QueryOk(table.ws[slot[0]], Query.In(values))
      ensures exists docids :: MeetsValues(Contents(), values, docids)
                && page == VisitAll(Page({}, offset), docids, limit)
      ensures offset == 0 == limit ==> page.found == Select(Contents(), Query.In(values))
    {
      page := Page({}, offset);
      for i := 0 to |values|
        invariant page == ScannedValues(Page({}, offset), Ordered(cf.keys), table.ws, slot[0], values[..i], limit)
      {
        var it := cf.NewIterator();
        page := ScanPrefix(it, ValuePrefix(table.ws, slot[0], values[i]), page, limit);
        assert values[..i + 1][..i] == values[..i];
      }
      assert values[..|values|] == values;
      ValuesFindPostings(table.ws, cf.keys, slot[0], values);
      ghost var docids := ValuesMetInOrder(table.ws, cf.keys, slot[0], values, Page({}, offset), limit);
    }

    /** The complement of the matches, cut in docid order. */
    method NotIn(values: seq<int>, size: nat, offset: int, limit: int) returns (result: set<nat>)
      requires Queryable() && QueryOk(table.ws[slot[0]], Query.In(values))
      ensures result == CutIfAsked(IndexAnswer(Contents(), size, Query.NotIn(values)), offset, limit)
    {
      var matched := In(values, 0, 0);
      result := UpTo(size);
      result := result - matched.found;
      if offset > 0 || limit > 0 {
        result := CutPage(result, offset, limit);
      }
    }

    method Equal(value: int, offset: int, limit: int) returns (page: Page)
      requires Queryable() && InRange(table.ws[slot[0]], value)
      ensures PagedScan(Contents(), Query.Equal(value), offset, limit, page)
      ensures offset == 0 == limit ==> page.found == Select(Contents(), Query.Equal(value))
    {
      page := In([value], offset, limit);
      OneValueMet(Contents(), value, offset, limit, page);
      assert Select(Contents(), Query.In([value])) == Select(Contents(), Query.Equal(value));
    }

    method NotEqual(value: int, size: nat, offset: int, limit: int) returns (result: set<nat>)
      requires Queryable() && InRange(table.ws[slot[0]], value)
      ensures result == CutIfAsked(IndexAnswer(Contents(), size, Query.NotEqual(value)), offset, limit)
    {
      result := NotIn([value], size, offset, limit);
      assert Select(Contents(), Query.In([value])) == Select(Contents(), Query.Equal(value));
    }

    // Range and the four comparisons: an unpaged answer is the query's postings, unless an
    // exclusive bound sits at the end of the type, where it wraps and other postings answer.

    method ScanValues(lower: ByteString, upper: ByteString, ghost q: Query, offset: int, limit: int)
      returns (page: Page)
      requires Queryable() && Ordering(q) && QueryOk(table.ws[slot[0]], q)
      requires lower == ValuePrefix(table.ws, slot[0], ScanBounds(table.ws[slot[0]], q).0)
      requires upper == ValuePrefix(table.ws, slot[0], ScanBounds(table.ws[slot[0]], q).1)
      ensures RangeAnswer(Contents(), table.ws[slot[0]], q, offset, limit, page)
    {
      page := ScanRange(lower, upper, offset, limit);
      BoundsFindPostings(table.ws, cf.keys, slot[0], q);
      BoundsMeetInOrder(table.ws, cf.keys, slot[0], q, offset, limit);
    }

    method Range(lower: int, lowerInclusive: bool, upper: int, upperInclusive: bool, offset: int, limit: int)
      returns (page: Page)
      requires Queryable() && InRange(table.ws[slot[0]], lower) && InRange(table.ws[slot[0]], upper)
      ensures RangeAnswer(Contents(), table.ws[slot[0]], Query.Range(lower, lowerInclusive, upper, upperInclusive),
                offset, limit, page)
    {
      var ws, f := table.ws, slot[0];
      var adjustedLower := ScanLower(ws[f], lower, lowerInclusive);
      var adjustedUpper := ScanUpper(ws[f], upper, upperInclusive);
      page := ScanValues(ValuePrefix(ws, f, adjustedLower), ValuePrefix(ws, f, adjustedUpper),
                         Query.Range(lower, lowerInclusive, upper, upperInclusive), offset, limit);
    }

    method LessThan(value: int, offset: int, limit: int) returns (page: Page)
      requires Queryable() && InRange(table.ws[slot[0]], value)
      ensures RangeAnswer(Contents(), table.ws[slot[0]], Query.LessThan(value), offset, limit, page)
    {
      page := ScanValues(MinPrefix(table.ws, slot[0]),
          ValuePrefix(table.ws, slot[0], Wrapped(table.ws[slot[0]], value - 1)),
                         Query.LessThan(value), offset, limit);
    }

    method LessEqual(value: int, offset: int, limit: int) returns (page: Page)
      requires Queryable() && InRange(table.ws[slot[0]], value)
      ensures RangeAnswer(Contents(), table.ws[slot[0]], Query.LessEqual(value), offset, limit, page)
    {
      page := ScanValues(MinPrefix(table.ws, slot[0]), ValuePrefix(table.ws, slot[0], value),
                         Query.LessEqual(value), offset, limit);
    }

    method GreaterThan(value: int, offset: int, limit: int) returns (page: Page)
      requires Queryable() && InRange(table.ws[slot[0]], value)
      ensures RangeAnswer(Contents(), table.ws[slot[0]], Query.GreaterThan(value), offset, limit, page)
    {
      page := ScanValues(ValuePrefix(table.ws, slot[0], Wrapped(table.ws[slot[0]], value + 1)),
          MaxPrefix(table.ws, slot[0]),
                         Query.GreaterThan(value), offset, limit);
    }

    method GreaterEqual(value: int, offset: int, limit: int) returns (page: Page)
      requires Queryable() && InRange(table.ws[slot[0]], value)
      ensures RangeAnswer(Contents(), table.ws[slot[0]], Query.GreaterEqual(value), offset, limit, page)
    {
      page := ScanValues(ValuePrefix(table.ws, slot[0], value), MaxPrefix(table.ws, slot[0]),
                         Query.GreaterEqual(value), offset, limit);
    }
  }

  /** The inclusive range a comparison scans, wrapped bounds included. */
  function Within(n: nat, q: Query): Query
    requires n > 0 && Ordering(q) && QueryOk(n, q)
  {
    Range(ScanBounds(n, q).0, true, ScanBounds(n, q).1, true)
  }

  /** NotIn pages only when asked to. */
  ghost function CutIfAsked(s: set<nat>, offset: int, limit: int): set<nat> {
    if offset > 0 || limit > 0 then PageOf(s, offset, limit) else s
  }

  lemma OneValueMet(ps: Postings, value: int, offset: int, limit: int, page: Page)
    requires exists docids :: MeetsValues(ps, [value], docids) && page == VisitAll(Page({}, offset), docids, limit)
    ensures PagedScan(ps, Equal(value), offset, limit, page)
  {
    var docids :| MeetsValues(ps, [value], docids) && page == VisitAll(Page({}, offset), docids, limit);
    var xs := [value];
    var init, list :| MeetsValues(ps, xs[..|xs| - 1], init) && Lists(list, ps, Equal(xs[|xs| - 1]))
        && docids == init + Seconds(list);
    assert xs[..|xs| - 1] == [] && init == [] && docids == Seconds(list);
  }

  lemma BoundsMeetInOrder(ws: Widths, keys: set<ByteString>, f: nat, q: Query, offset: int, limit: int)
    requires f < |ws| && FieldClean(ws, keys, f) && Ordering(q) && QueryOk(ws[f], q)
    ensures var b := ScanBounds(ws[f], q);
            PagedScan(PostingsOf(ws, keys, f), Within(ws[f], q), offset, limit,
                      Scanned(Page({}, offset), Ordered(keys),
                          Between(ValuePrefix(ws, f, b.0), ValuePrefix(ws, f, b.1)), limit))
  {
    var b := ScanBounds(ws[f], q);
    var scan := Between(ValuePrefix(ws, f, b.0), ValuePrefix(ws, f, b.1));
    BetweenImplements(ws, f, b.0, b.1);
    var list := ScanMeetsInOrder(ws, keys, Ordered(keys), f, scan, Within(ws[f], q));
  }

  /** What a range scan answers, wrapped bounds included. */
  ghost function Compared(ps: Postings, n: nat, q: Query): set<nat>
    requires n > 0 && Ordering(q) && QueryOk(n, q)
  {
    Select(ps, Within(n, q))
  }

  lemma SelectWithin(ws: Widths, keys: set<ByteString>, f: nat, q: Query)
    requires f < |ws| && FieldClean(ws, keys, f) && Ordering(q) && QueryOk(ws[f], q) && NoWrap(ws[f], q)
    ensures Select(PostingsOf(ws, keys, f), Within(ws[f], q)) == Select(PostingsOf(ws, keys, f), q)
  {
    var ps := PostingsOf(ws, keys, f);
    ScanBoundsExact(ws[f], q);
    forall p | p in ps ensures InRange(ws[f], p.0) { assert Posted(ws, keys, f, p.0, p.1); }
    SelectSame(ps, ws[f], q, Within(ws[f], q));
  }

  lemma BoundsFindCompared(ws: Widths, keys: set<ByteString>, f: nat, q: Query, scan: Scan)
    requires f < |ws| && FieldClean(ws, keys, f) && Ordering(q) && QueryOk(ws[f], q)
    requires scan == Between(ValuePrefix(ws, f, ScanBounds(ws[f], q).0), ValuePrefix(ws, f, ScanBounds(ws[f], q).1))
    ensures Scanned(Page({}, 0), Ordered(keys), scan, 0).found == Compared(PostingsOf(ws, keys, f), ws[f], q)
  {
    BetweenImplements(ws, f, ScanBounds(ws[f], q).0, ScanBounds(ws[f], q).1);
    ScanFindsPostings(ws, keys, Ordered(keys), f, scan, Within(ws[f], q), {});
  }

  lemma BoundsFindPostings(ws: Widths, keys: set<ByteString>, f: nat, q: Query)
    requires f < |ws| && FieldClean(ws, keys, f) && Ordering(q) && QueryOk(ws[f], q)
    ensures var b := ScanBounds(ws[f], q);
            var found := Scanned(Page({}, 0), Ordered(keys), Between(ValuePrefix(ws, f, b.0), ValuePrefix(ws, f, b.1)),
                0).found;
            && found == Compared(PostingsOf(ws, keys, f), ws[f], q)
            && (NoWrap(ws[f], q) ==> found == Select(PostingsOf(ws, keys, f), q))
  {
    var b := ScanBounds(ws[f], q);
    BoundsFindCompared(ws, keys, f, q, Between(ValuePrefix(ws, f, b.0), ValuePrefix(ws, f, b.1)));
    if NoWrap(ws[f], q) { SelectWithin(ws, keys, f, q); }
  }
}
