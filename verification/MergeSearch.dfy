/**
 * The router's gather side: mergeSortedArrays, AddMergeSort folded over the partition replies
 * in arrival order, the final sort, the TopN cut and paging.
 */
module MergeSearch {

  datatype Item = Item(key: string, score: real)

  /** y may stand before x. desc is the metric's direction. */
  predicate Ahead(desc: bool, y: Item, x: Item) {
    if desc then y.score >= x.score else y.score <= x.score
  }

  ghost predicate Sorted(desc: bool, s: seq<Item>) {
    forall i, j :: 0 <= i < j < |s| ==> Ahead(desc, s[i], s[j])
  }

  function Merged(desc: bool, a: seq<Item>, b: seq<Item>): seq<Item> {
    if a == [] then b
    else if b == [] then a
    else if !Ahead(desc, b[0], a[0]) then [a[0]] + Merged(desc, a[1..], b)
    else [b[0]] + Merged(desc, a, b[1..])
  }

  function Cut(s: seq<Item>, n: nat): seq<Item> {
    if |s| > n then s[..n] else s
  }

  /** mergeSortedArrays: an empty side leaves the other uncut when topN is 0, two full sides do not. */
  function MergeSorted(desc: bool, a: seq<Item>, b: seq<Item>, topN: nat): seq<Item> {
    if a == [] then (if topN > 0 then Cut(b, topN) else b)
    else if b == [] then (if topN > 0 then Cut(a, topN) else a)
    else Cut(Merged(desc, a, b), topN)
  }

  /** What the merge loop has appended when it stands at i and j. */
  ghost predicate Progress(desc: bool, a: seq<Item>, b: seq<Item>, i: nat, j: nat, merged: seq<Item>) {
    i <= |a| && j <= |b| && merged + Merged(desc, a[i..], b[j..]) == Merged(desc, a, b)
  }

  lemma ProgressStep(desc: bool, a: seq<Item>, b: seq<Item>, i: nat, j: nat, merged: seq<Item>)
    requires i < |a| && j < |b| && Progress(desc, a, b, i, j, merged)
    ensures if !Ahead(desc, b[j], a[i]) then Progress(desc, a, b, i + 1, j, merged + [a[i]])
            else Progress(desc, a, b, i, j + 1, merged + [b[j]])
  {
    assert a[i..][1..] == a[i + 1..] && b[j..][1..] == b[j + 1..];
  }

  lemma ProgressStart(desc: bool, a: seq<Item>, b: seq<Item>)
    ensures Progress(desc, a, b, 0, 0, [])
  {
    assert a[0..] == a && b[0..] == b;
  }

  lemma ProgressEnd(desc: bool, a: seq<Item>, b: seq<Item>, i: nat, j: nat, merged: seq<Item>)
    requires Progress(desc, a, b, i, j, merged) && (i == |a| || j == |b|)
    ensures merged + a[i..] + b[j..] == Merged(desc, a, b)
  {
    if i == |a| {
      assert a[i..] == [] && merged + [] + b[j..] == merged + b[j..];
    } else {
      assert b[j..] == [] && merged + a[i..] + [] == merged + a[i..];
    }
  }

  /** The loops that append what is left of one side. */
  method AppendFrom(merged: seq<Item>, arr: seq<Item>, from: nat) returns (r: seq<Item>)
    requires from <= |arr|
    ensures r == merged + arr[from..]
  {
    r := merged;
    for i := from to |arr|
      invariant r == merged + arr[from..i]
    {
      r := r + [arr[i]];
    }
  }

  method MergeSortedArrays(desc: bool, arr1: seq<Item>, arr2: seq<Item>, topN: nat) returns (r: seq<Item>)
    ensures r == MergeSorted(desc, arr1, arr2, topN)
  {
    var m, n := |arr1|, |arr2|;
    if m == 0 {
      return if topN > 0 && n > topN then arr2[..topN] else arr2;
    }
    if n == 0 {
      return if topN > 0 && m > topN then arr1[..topN] else arr1;
    }
    var merged: seq<Item> := [];
    var i, j := 0, 0;
    ProgressStart(desc, arr1, arr2);
    while i < m && j < n
      invariant 0 <= i <= m && 0 <= j <= n && Progress(desc, arr1, arr2, i, j, merged)
      decreases m + n - i - j
    {
      ProgressStep(desc, arr1, arr2, i, j, merged);
      if (desc && arr1[i].score > arr2[j].score) || (!desc && arr1[i].score < arr2[j].score) {
        merged := merged + [arr1[i]];
        i := i + 1;
      } else {
        merged := merged + [arr2[j]];
        j := j + 1;
      }
    }
    ProgressEnd(desc, arr1, arr2, i, j, merged);
    merged := AppendFrom(merged, arr1, i);
    merged := AppendFrom(merged, arr2, j);
    return if |merged| > topN then merged[..topN] else merged;
  }

  lemma ConsContents(x: Item, s: seq<Item>, t: seq<Item>)
    requires t == [x] + s
    ensures multiset(t) == multiset{x} + multiset(s) && |t| == |s| + 1
  {
  }

  lemma {:induction false} MergedContents(desc: bool, a: seq<Item>, b: seq<Item>)
    ensures multiset(Merged(desc, a, b)) == multiset(a) + multiset(b)
    ensures |Merged(desc, a, b)| == |a| + |b|
  {
    if a != [] && b != [] {
      if !Ahead(desc, b[0], a[0]) {
        MergedContents(desc, a[1..], b);
        ConsContents(a[0], Merged(desc, a[1..], b), Merged(desc, a, b));
        ConsContents(a[0], a[1..], a);
      } else {
        MergedContents(desc, a, b[1..]);
        ConsContents(b[0], Merged(desc, a, b[1..]), Merged(desc, a, b));
        ConsContents(b[0], b[1..], b);
      }
    }
  }

  /** Everything in the sequence comes after x. */
  predicate AllAfter(desc: bool, x: Item, s: seq<Item>) {
    forall i :: 0 <= i < |s| ==> Ahead(desc, x, s[i])
  }

  lemma SortedCons(desc: bool, x: Item, s: seq<Item>)
    requires Sorted(desc, s) && AllAfter(desc, x, s)
    ensures Sorted(desc, [x] + s)
  {
  }

  lemma AllAfterMerged(desc: bool, x: Item, a: seq<Item>, b: seq<Item>)
    requires AllAfter(desc, x, a) && AllAfter(desc, x, b)
    ensures AllAfter(desc, x, Merged(desc, a, b))
  {
    MergedContents(desc, a, b);
    forall i | 0 <= i < |Merged(desc, a, b)| ensures Ahead(desc, x, Merged(desc, a, b)[i]) {
      var y := Merged(desc, a, b)[i];
      assert y in multiset(Merged(desc, a, b));
      assert y in multiset(a) || y in multiset(b);
    }
  }

  lemma {:induction false} MergedSorted(desc: bool, a: seq<Item>, b: seq<Item>)
    requires Sorted(desc, a) && Sorted(desc, b)
    ensures Sorted(desc, Merged(desc, a, b))
  {
    if a != [] && b != [] {
      if !Ahead(desc, b[0], a[0]) {
        MergedSorted(desc, a[1..], b);
        AllAfterMerged(desc, a[0], a[1..], b);
        SortedCons(desc, a[0], Merged(desc, a[1..], b));
      } else {
        MergedSorted(desc, a, b[1..]);
        AllAfterMerged(desc, b[0], a, b[1..]);
        SortedCons(desc, b[0], Merged(desc, a, b[1..]));
      }
    }
  }

  // The best n of a collection.

  /** No item of the multiset beats an item of the sequence. */
  ghost predicate Beaten(desc: bool, left: multiset<Item>, s: seq<Item>) {
    forall x, y :: x in left && y in s ==> Ahead(desc, y, x)
  }

  /** s holds the best of all in order, at least n of them if there are so many. */
  ghost predicate Best(desc: bool, s: seq<Item>, all: multiset<Item>, n: nat) {
    && Sorted(desc, s) && multiset(s) <= all
    && (|s| >= n || |s| == |all|)
    && Beaten(desc, all - multiset(s), s)
  }

  lemma SplitContents(s: seq<Item>, n: nat)
    requires n <= |s|
    ensures multiset(s) == multiset(s[..n]) + multiset(s[n..])
  {
    assert s == s[..n] + s[n..];
  }

  lemma CutIsBest(desc: bool, s: seq<Item>, all: multiset<Item>, n: nat)
    requires Best(desc, s, all, n)
    ensures Best(desc, Cut(s, n), all, n)
  {
    if |s| > n {
      SplitContents(s, n);
      var left := all - multiset(s[..n]);
      assert left == (all - multiset(s)) + multiset(s[n..]);
      forall x, y | x in left && y in s[..n] ensures Ahead(desc, y, x) {
        assert y in s;
        if x in multiset(s[n..]) { assert x in s[n..]; }
      }
    }
  }

  /** Two full multisets of the same size, one inside the other, are equal. */
  lemma FullInclusion(a: multiset<Item>, b: multiset<Item>)
    requires a <= b && |a| >= |b|
    ensures a == b
  {
    assert b == a + (b - a);
    assert |b - a| == 0;
  }

  /** What one side left out is also beaten by the cut merge. */
  lemma LeftOutStaysBeaten(desc: bool, a: seq<Item>, all: multiset<Item>, merged: seq<Item>, n: nat, x: Item)
    requires Best(desc, a, all, n) && Sorted(desc, merged) && multiset(a) <= multiset(merged)
    requires |merged| >= n && x in all - multiset(a)
    ensures forall y :: y in merged[..n] ==> Ahead(desc, y, x)
  {
    var take := merged[..n];
    assert all == multiset(a) + (all - multiset(a));
    assert |a| >= n;
    SplitContents(merged, n);
    if multiset(a) <= multiset(take) {
      FullInclusion(multiset(a), multiset(take));
      forall y | y in take ensures Ahead(desc, y, x) { assert y in multiset(a) && y in a; }
    } else {
      var z :| multiset(a)[z] > multiset(take)[z];
      assert z in multiset(merged[n..]) && z in merged[n..];
      assert z in multiset(a) && z in a;
      forall y | y in take ensures Ahead(desc, y, x) { assert Ahead(desc, y, z) && Ahead(desc, z, x); }
    }
  }

  function Rest(s: seq<Item>, n: nat): seq<Item> {
    if |s| > n then s[n..] else []
  }

  lemma CutAndRest(desc: bool, s: seq<Item>, n: nat)
    requires Sorted(desc, s)
    ensures multiset(s) == multiset(Cut(s, n)) + multiset(Rest(s, n))
    ensures Sorted(desc, Cut(s, n)) && Beaten(desc, multiset(Rest(s, n)), Cut(s, n))
  {
    if |s| > n { SplitContents(s, n); }
    forall x, y | x in multiset(Rest(s, n)) && y in Cut(s, n) ensures Ahead(desc, y, x) { assert x in Rest(s, n); }
  }

  lemma SideStaysBeaten(desc: bool, a: seq<Item>, all: multiset<Item>, merged: seq<Item>, n: nat)
    requires Best(desc, a, all, n) && Sorted(desc, merged) && multiset(a) <= multiset(merged) && |a| <= |merged|
    ensures Beaten(desc, all - multiset(a), Cut(merged, n))
  {
    forall x, y | x in all - multiset(a) && y in Cut(merged, n) ensures Ahead(desc, y, x) {
      assert all == multiset(a) + (all - multiset(a)) && |a| >= n;
      LeftOutStaysBeaten(desc, a, all, merged, n, x);
      assert y in merged[..n];
    }
  }

  lemma LeftOver(a: multiset<Item>, all: multiset<Item>, b: multiset<Item>, more: multiset<Item>, cut: multiset<Item>,
                 rest: multiset<Item>)
    requires a <= all && b <= more && a + b == cut + rest
    ensures cut <= all + more && (all + more) - cut == (all - a) + (more - b) + rest
  {
    forall x: Item ensures a[x] + b[x] == cut[x] + rest[x] && a[x] <= all[x] && b[x] <= more[x] {
      assert (a + b)[x] == (cut + rest)[x];
    }
  }

  lemma MergedIsBest(desc: bool, a: seq<Item>, all: multiset<Item>, b: seq<Item>, more: multiset<Item>, n: nat)
    requires Best(desc, a, all, n) && Best(desc, b, more, n)
    ensures Best(desc, Cut(Merged(desc, a, b), n), all + more, n)
  {
    var m := Merged(desc, a, b);
    MergedSorted(desc, a, b);
    MergedContents(desc, a, b);
    CutAndRest(desc, m, n);
    SideStaysBeaten(desc, a, all, m, n);
    SideStaysBeaten(desc, b, more, m, n);
    LeftOver(multiset(a), all, multiset(b), more, multiset(Cut(m, n)), multiset(Rest(m, n)));
    if |m| <= n { SizesAdd(a, all, b, more, n); }
  }

  lemma SizesAdd(a: seq<Item>, all: multiset<Item>, b: seq<Item>, more: multiset<Item>, n: nat)
    requires (|a| >= n || |a| == |all|) && (|b| >= n || |b| == |more|)
    requires multiset(a) <= all && multiset(b) <= more && |a| + |b| <= n
    ensures |a| + |b| >= n || |a| + |b| == |all + more|
  {
  }

  /** Without a TopN a side alone stays whole, and two sides together come to nothing. */
  lemma MergeSortedAtZero(desc: bool, a: seq<Item>, b: seq<Item>)
    ensures MergeSorted(desc, a, [], 0) == a && MergeSorted(desc, [], b, 0) == b
    ensures a != [] && b != [] ==> MergeSorted(desc, a, b, 0) == []
  {
  }

  /** mergeSortedArrays keeps the best n of both sides together. */
  lemma MergeSortedIsBest(desc: bool, a: seq<Item>, all: multiset<Item>, b: seq<Item>, more: multiset<Item>, n: nat)
    requires n > 0 && Best(desc, a, all, n) && Best(desc, b, more, n)
    ensures Best(desc, MergeSorted(desc, a, b, n), all + more, n)
  {
    MergedIsBest(desc, a, all, b, more, n);
  }

  /** Taking one best item out of both sides shifts the scores by one. */
  lemma ShiftedScores(desc: bool, t: seq<Item>, k: nat)
    requires k < |t| && Sorted(desc, t) && Ahead(desc, t[k], t[0])
    ensures var rest := t[..k] + t[k + 1..];
            Sorted(desc, rest) && t[0].score == t[k].score && forall i :: 1 <= i < |t| ==>
                rest[i - 1].score == t[i].score
  {
    var rest := t[..k] + t[k + 1..];
    assert forall i :: 0 <= i < |rest| ==> rest[i] == if i < k then t[i] else t[i + 1];
    assert forall i :: 0 < i <= k ==> Ahead(desc, t[0], t[i]) && (i < k ==> Ahead(desc, t[i], t[k]));
  }

  /** The scores of the best are the leading scores of all items in order, whatever the ties. */
  lemma {:induction false} BestScores(desc: bool, s: seq<Item>, all: multiset<Item>, t: seq<Item>)
    requires Sorted(desc, s) && multiset(s) <= all && Beaten(desc, all - multiset(s), s)
    requires Sorted(desc, t) && multiset(t) == all
    ensures |s| <= |t| && forall i :: 0 <= i < |s| ==> s[i].score == t[i].score
    decreases |s|
  {
    if s != [] {
      var x := s[0];
      assert x in multiset(t) && x in t;
      var k :| 0 <= k < |t| && t[k] == x;
      HeadIsAhead(desc, s, all);
      assert t[0] in multiset(t);
      ShiftedScores(desc, t, k);
      Without(t, k);
      TailIsBest(desc, s, all);
      BestScores(desc, s[1..], all - multiset{x}, t[..k] + t[k + 1..]);
    }
  }

  lemma TailIsBest(desc: bool, s: seq<Item>, all: multiset<Item>)
    requires s != [] && Sorted(desc, s) && multiset(s) <= all && Beaten(desc, all - multiset(s), s)
    ensures var left := all - multiset{s[0]};
            Sorted(desc, s[1..]) && multiset(s[1..]) <= left && Beaten(desc, left - multiset(s[1..]), s[1..])
  {
    assert s == [s[0]] + s[1..];
    assert all - multiset{s[0]} - multiset(s[1..]) == all - multiset(s);
  }

  lemma Without<T>(t: seq<T>, k: nat)
    requires k < |t|
    ensures multiset(t[..k] + t[k + 1..]) == multiset(t) - multiset{t[k]}
  {
    assert t == t[..k] + [t[k]] + t[k + 1..];
  }

  lemma HeadIsAhead(desc: bool, s: seq<Item>, all: multiset<Item>)
    requires s != [] && Sorted(desc, s) && multiset(s) <= all && Beaten(desc, all - multiset(s), s)
    ensures forall y :: y in all ==> Ahead(desc, s[0], y)
  {
    forall y | y in all ensures Ahead(desc, s[0], y) {
      if y in multiset(s) { assert y in s; } else { assert y in all - multiset(s) && s[0] in s; }
    }
  }

  lemma {:induction false} SortedExists(desc: bool, all: multiset<Item>) returns (t: seq<Item>)
    ensures Sorted(desc, t) && multiset(t) == all
    decreases |all|
  {
    t := [];
    if all != multiset{} {
      var x :| x in all;
      var u := SortedExists(desc, all - multiset{x});
      MergedSorted(desc, [x], u);
      MergedContents(desc, [x], u);
      t := Merged(desc, [x], u);
    }
  }

  // Rows of a reply, one per query vector, and the fold over replies.

  datatype Row = Row(
    totalHits: int, maxScore: real, maxTook: int, maxTookId: int, timeout: bool,
    total: int, failed: int, successful: int, items: seq<Item>)

  /** AddMergeSort on values. */
  function MergeRow(desc: bool, a: Row, b: Row, topN: nat): Row {
    var later := b.maxTook > a.maxTook;
    Row(a.totalHits + b.totalHits, if b.maxScore > a.maxScore then b.maxScore else a.maxScore,
        if later then b.maxTook else a.maxTook, if later then b.maxTookId else a.maxTookId, a.timeout && b.timeout,
        a.total + b.total, a.failed + b.failed, a.successful + b.successful,
        MergeSorted(desc, a.items, b.items, topN))
  }

  /** SearchResult with its status. */
  class SearchResult {
    var totalHits: int
    var maxScore: real
    var maxTook: int
    var maxTookId: int
    var timeout: bool
    var total: int
    var failed: int
    var successful: int
    var items: seq<Item>

    ghost function View(): Row
      reads this
    {
      Row(totalHits, maxScore, maxTook, maxTookId, timeout, total, failed, successful, items)
    }

    constructor (row: Row)
      ensures View() == row
    {
      totalHits, maxScore, maxTook, maxTookId := row.totalHits, row.maxScore, row.maxTook, row.maxTookId;
      timeout, total, failed, successful := row.timeout, row.total, row.failed, row.successful;
      items := row.items;
    }

    method AddMergeSort(other: SearchResult, topN: nat, desc: bool)
      modifies this
      ensures View() == MergeRow(desc, old(View()), old(other.View()), topN)
    {
      MergeStatus(other);
      totalHits := totalHits + other.totalHits;
      if other.maxScore > maxScore {
        maxScore := other.maxScore;
      }
      if other.maxTook > maxTook {
        maxTookId := other.maxTookId;
        maxTook := other.maxTook;
      }
      timeout := timeout && other.timeout;
      MergeItems(other, topN, desc);
    }

    method MergeStatus(other: SearchResult)
      modifies this`total, this`failed, this`successful
      ensures total == old(total + other.total) && failed == old(failed + other.failed)
      ensures successful == old(successful + other.successful)
    {
      total, failed, successful := total + other.total, failed + other.failed, successful + other.successful;
    }

    method MergeItems(other: SearchResult, topN: nat, desc: bool)
      modifies this`items
      ensures items == MergeSorted(desc, old(items), old(other.items), topN)
    {
      if |items| > 0 || |other.items| > 0 {
        items := MergeSortedArrays(desc, items, other.items, topN);
      }
    }
  }

  /** A partition's reply; an error reply is skipped. */
  datatype Reply = Failed | Rows(rows: seq<Row>)

  /** With fewer rows than the result has, every row is merged with the reply's first. */
  function Partner(a: seq<Row>, b: seq<Row>, i: nat): Row
    requires i < |a| && i < |b|
  {
    if |a| <= |b| then b[i] else b[0]
  }

  function MergedRows(desc: bool, a: seq<Row>, b: seq<Row>, topN: nat): (r: seq<Row>)
    ensures |r| == |a|
    ensures forall i :: 0 <= i < |a| ==> r[i] == if i < |b| then MergeRow(desc, a[i], Partner(a, b, i), topN) else a[i]
  {
    seq(|a|, i requires 0 <= i < |a| => if i < |b| then MergeRow(desc, a[i], Partner(a, b, i), topN) else a[i])
  }

  function Step(desc: bool, acc: seq<Row>, reply: Reply, topN: nat): seq<Row> {
    if reply.Failed? then acc else if acc == [] then reply.rows else MergedRows(desc, acc, reply.rows, topN)
  }

  function Fold(desc: bool, acc: seq<Row>, replies: seq<Reply>, topN: nat): seq<Row>
    decreases replies
  {
    if replies == [] then acc else Fold(desc, Step(desc, acc, replies[0], topN), replies[1..], topN)
  }

  ghost predicate Shows(results: seq<SearchResult>, rows: seq<Row>)
    reads results
  {
    |results| == |rows| && forall i :: 0 <= i < |rows| ==> results[i].View() == rows[i]
  }

  predicate Distinct(results: seq<SearchResult>) {
    forall i, j :: 0 <= i < j < |results| ==> results[i] != results[j]
  }

  predicate Apart(a: seq<SearchResult>, b: seq<SearchResult>) {
    forall i, j :: 0 <= i < |a| && 0 <= j < |b| ==> a[i] != b[j]
  }

  /** The row loop for one reply. */
  method MergeReply(desc: bool, result: seq<SearchResult>, reply: seq<SearchResult>, topN: nat, ghost a: seq<Row>,
                    ghost b: seq<Row>)
    requires Shows(result, a) && Shows(reply, b) && Distinct(result) && Apart(result, reply)
    modifies result
    ensures Shows(result, MergedRows(desc, a, b, topN))
  {
    var n := if |result| <= |reply| then |result| else |reply|;
    for i := 0 to n
      invariant Shows(reply, b)
      invariant forall k :: 0 <= k < |result| ==>
                  result[k].View() == if k < i then MergedRows(desc, a, b, topN)[k] else a[k]
    {
      if |result| <= |reply| {
        result[i].AddMergeSort(reply[i], topN, desc);
      } else {
        result[i].AddMergeSort(reply[0], topN, desc);
      }
    }
  }

  /** A reply as it arrives, its rows still objects. */
  datatype Response = Error | Response(rows: seq<SearchResult>)

  function RowSet(response: Response): set<SearchResult> {
    if response.Response? then set x | x in response.rows else {}
  }

  ghost function Objects(responses: seq<Response>): set<SearchResult> {
    set i, x | 0 <= i < |responses| && x in RowSet(responses[i]) :: x
  }

  /** The response's rows show the reply's. */
  ghost predicate CarriesOne(response: Response, reply: Reply)
    reads RowSet(response)
  {
    (response.Response? <==> reply.Rows?) && (response.Response? ==> Shows(response.rows, reply.rows))
  }

  ghost predicate Carries(responses: seq<Response>, replies: seq<Reply>, from: nat)
    reads Objects(responses)
  {
    |responses| == |replies| && forall i :: from <= i < |responses| ==> CarriesOne(responses[i], replies[i])
  }

  predicate Separate(responses: seq<Response>) {
    && (forall i :: 0 <= i < |responses| && responses[i].Response? ==> Distinct(responses[i].rows))
    && (forall i, j :: 0 <= i < j < |responses| ==> RowSet(responses[i]) !! RowSet(responses[j]))
  }

  lemma FoldFrom(desc: bool, acc: seq<Row>, replies: seq<Reply>, r: nat, topN: nat)
    requires r < |replies|
    ensures Fold(desc, acc, replies[r..], topN) == Fold(desc, Step(desc, acc, replies[r], topN), replies[r + 1..], topN)
  {
    assert replies[r..][1..] == replies[r + 1..];
  }

  /** One reply: the first that has rows becomes the result, a later one is merged into its objects. */
  method Receive(desc: bool, result: Response, response: Response, topN: nat, ghost acc: Reply, ghost reply: Reply)
    returns (next: Response)
    requires result.Response? && Distinct(result.rows) && RowSet(result) !! RowSet(response)
    requires CarriesOne(result, acc) && CarriesOne(response, reply)
    modifies RowSet(result)
    ensures next == if response.Error? || result.rows != [] then result else response
    ensures CarriesOne(next, Rows(Step(desc, acc.rows, reply, topN)))
  {
    if response.Error? {
      return result;
    }
    if |result.rows| == 0 {
      return response;
    }
    forall i, j | 0 <= i < |result.rows| && 0 <= j < |response.rows| ensures result.rows[i] != response.rows[j] {
      assert result.rows[i] in RowSet(result) && response.rows[j] in RowSet(response);
    }
    MergeReply(desc, result.rows, response.rows, topN, acc.rows, reply.rows);
    return result;
  }

  /** The receive loop. */
  method MergeReplies(desc: bool, responses: seq<Response>, topN: nat, ghost replies: seq<Reply>)
    returns (result: Response)
    requires Carries(responses, replies, 0) && Separate(responses)
    modifies Objects(responses)
    ensures CarriesOne(result, Rows(Fold(desc, [], replies, topN)))
  {
    result := Response([]);
    ghost var acc: seq<Row> := [];
    assert replies[0..] == replies;
    for r := 0 to |responses|
      invariant result.Response? && Distinct(result.rows) && RowSet(result) <= Objects(responses)
      invariant forall j :: r <= j < |responses| ==> RowSet(result) !! RowSet(responses[j])
      invariant CarriesOne(result, Rows(acc)) && Carries(responses, replies, r)
      invariant Fold(desc, acc, replies[r..], topN) == Fold(desc, [], replies, topN)
    {
      FoldFrom(desc, acc, replies, r, topN);
      result := Receive(desc, result, responses[r], topN, Rows(acc), replies[r]);
      acc := Step(desc, acc, replies[r], topN);
    }
    assert replies[|responses|..] == [];
  }

  // What the fold means.

  /** A reply has no rows, or one sorted row per query. */
  ghost predicate ReplyOk(desc: bool, reply: Reply, k: nat) {
    reply.Rows? ==> (|reply.rows| == 0 || |reply.rows| == k) && forall i :: 0 <= i < |reply.rows| ==>
        Sorted(desc, reply.rows[i].items)
  }

  predicate RepliesTo(reply: Reply, i: nat) {
    reply.Rows? && i < |reply.rows|
  }

  function ItemsOf(reply: Reply, i: nat): multiset<Item> {
    if RepliesTo(reply, i) then multiset(reply.rows[i].items) else multiset{}
  }

  function HitsOf(reply: Reply, i: nat): int {
    if RepliesTo(reply, i) then reply.rows[i].totalHits else 0
  }

  /** All items any partition returned for a query, and their hit counts. */
  function AllItems(replies: seq<Reply>, i: nat): multiset<Item> {
    if replies == [] then multiset{} else ItemsOf(replies[0], i) + AllItems(replies[1..], i)
  }

  function AllHits(replies: seq<Reply>, i: nat): int {
    if replies == [] then 0 else HitsOf(replies[0], i) + AllHits(replies[1..], i)
  }

  /** The accumulator holds the best of what arrived so far. */
  ghost predicate Holds(desc: bool, acc: seq<Row>, k: nat, n: nat, i: nat, items: multiset<Item>, hits: int) {
    if acc == [] then items == multiset{} && hits == 0
    else |acc| == k && i < k && Best(desc, acc[i].items, items, n) && acc[i].totalHits == hits
  }

  lemma WholeIsBest(desc: bool, s: seq<Item>, n: nat)
    requires Sorted(desc, s)
    ensures Best(desc, s, multiset(s), n)
  {
  }

  lemma StepHolds(desc: bool, acc: seq<Row>, reply: Reply, k: nat, n: nat, i: nat, items: multiset<Item>, hits: int)
    requires n > 0 && i < k && ReplyOk(desc, reply, k) && Holds(desc, acc, k, n, i, items, hits)
    ensures Holds(desc, Step(desc, acc, reply, n), k, n, i, items + ItemsOf(reply, i), hits + HitsOf(reply, i))
  {
    assert items + multiset{} == items && multiset{} + ItemsOf(reply, i) == ItemsOf(reply, i);
    if RepliesTo(reply, i) {
      WholeIsBest(desc, reply.rows[i].items, n);
      if acc != [] {
        MergeSortedIsBest(desc, acc[i].items, items, reply.rows[i].items, ItemsOf(reply, i), n);
      }
    }
  }

  lemma {:induction false} FoldHolds(desc: bool, acc: seq<Row>, replies: seq<Reply>, k: nat, n: nat, i: nat,
                                     items: multiset<Item>, hits: int)
    requires n > 0 && i < k && (forall r :: 0 <= r < |replies| ==> ReplyOk(desc, replies[r], k))
               && Holds(desc, acc, k, n, i, items, hits)
    ensures Holds(desc, Fold(desc, acc, replies, n), k, n, i, items + AllItems(replies, i), hits + AllHits(replies, i))
    decreases replies
  {
    if replies == [] {
      assert items + multiset{} == items;
    } else {
      var more := ItemsOf(replies[0], i);
      StepHolds(desc, acc, replies[0], k, n, i, items, hits);
      FoldHolds(desc, Step(desc, acc, replies[0], n), replies[1..], k, n, i, items + more,
                hits + HitsOf(replies[0], i));
      assert items + more + AllItems(replies[1..], i) == items + AllItems(replies, i);
    }
  }

  // The end of SearchFieldSortExecute.

  datatype Answer = Items(items: seq<Item>) | Panic

  /** int32 arithmetic of the request's paging fields. */
  function Wrap32(x: int): int {
    (x + 0x8000_0000) % 0x1_0000_0000 - 0x8000_0000
  }

  predicate Int32(x: int) {
    -0x8000_0000 <= x < 0x8000_0000
  }

  /** Paging or the TopN cut on the sorted items; a slice out of order panics. */
  function Paged(items: seq<Item>, pageSize: int, pageNum: int, topN: int): Answer {
    if items == [] then Items([])
    else if pageSize > 0 && pageNum >= 1 then
      var start := Wrap32(pageSize * (pageNum - 1));
      var end := Wrap32(start + pageSize);
      var stop := if end > |items| then |items| else end;
      if start >= |items| then Items([])
      else if 0 <= start <= stop then Items(items[start..stop]) else Panic
    else if topN > 0 then Items(Cut(items, topN))
    else Items(items)
  }

  /** What sort.Slice may leave: it is not stable. */
  ghost predicate Sorting(desc: bool, s: seq<Item>, t: seq<Item>) {
    Sorted(desc, t) && multiset(t) == multiset(s)
  }

  lemma SortingIsBest(desc: bool, s: seq<Item>, t: seq<Item>, all: multiset<Item>, n: nat)
    requires Best(desc, s, all, n) && Sorting(desc, s, t)
    ensures Best(desc, t, all, n)
  {
    assert |multiset(s)| == |s| && |multiset(t)| == |t|;
    forall x, y | x in all - multiset(t) && y in t ensures Ahead(desc, y, x) { assert y in multiset(s) && y in s; }
  }

  ghost predicate SameScores(a: seq<Item>, b: seq<Item>) {
    |a| == |b| && forall i :: 0 <= i < |a| ==> a[i].score == b[i].score
  }

  function RowItems(rows: seq<Row>, i: nat): seq<Item> {
    if i < |rows| then rows[i].items else []
  }

  function RowHits(rows: seq<Row>, i: nat): int {
    if i < |rows| then rows[i].totalHits else 0
  }

  ghost predicate RepliesOk(desc: bool, replies: seq<Reply>, k: nat) {
    forall r :: 0 <= r < |replies| ==> ReplyOk(desc, replies[r], k)
  }

  lemma SortedAnswerIsBest(desc: bool, replies: seq<Reply>, k: nat, n: nat, i: nat, sorted: seq<Item>)
    requires 0 < n && i < k && RepliesOk(desc, replies, k)
    requires Sorting(desc, RowItems(Fold(desc, [], replies, n), i), sorted)
    ensures Best(desc, sorted, AllItems(replies, i), n)
    ensures RowHits(Fold(desc, [], replies, n), i) == AllHits(replies, i)
  {
    var items := AllItems(replies, i);
    FoldHolds(desc, [], replies, k, n, i, multiset{}, 0);
    assert multiset{} + items == items;
    WholeIsBest(desc, [], n);
    SortingIsBest(desc, RowItems(Fold(desc, [], replies, n), i), sorted, items, n);
  }

  /**
   * Without paging, the answer to query i has the scores of the first TopN of all items together,
   * in any order of arrival and however ties are broken; the hit counts add up.
   */
  lemma TopNOfAll(desc: bool, replies: seq<Reply>, k: nat, n: nat, i: nat, sorted: seq<Item>, all: seq<Item>)
    requires 0 < n && i < k && RepliesOk(desc, replies, k)
    requires Sorting(desc, RowItems(Fold(desc, [], replies, n), i), sorted)
    requires Sorted(desc, all) && multiset(all) == AllItems(replies, i)
    ensures RowHits(Fold(desc, [], replies, n), i) == AllHits(replies, i)
    ensures Paged(sorted, 0, 0, n).Items? && SameScores(Paged(sorted, 0, 0, n).items, Cut(all, n))
    ensures multiset(Paged(sorted, 0, 0, n).items) <= AllItems(replies, i)
  {
    var items := AllItems(replies, i);
    SortedAnswerIsBest(desc, replies, k, n, i, sorted);
    CutIsBest(desc, sorted, items, n);
    BestScores(desc, Cut(sorted, n), items, all);
    assert |multiset(all)| == |all|;
  }

  lemma Wrap32Fits(x: int)
    requires Int32(x)
    ensures Wrap32(x) == x
  {
  }

  lemma PageFits(pageSize: int, pageNum: int, topN: int)
    requires pageSize > 0 && pageNum >= 1 && pageSize * pageNum <= topN && Int32(topN)
    ensures var start := pageSize * (pageNum - 1); 0 <= start && start + pageSize == pageSize * pageNum && 0 < topN
    ensures Wrap32(pageSize * (pageNum - 1)) == pageSize * (pageNum - 1)
    ensures Wrap32(pageSize * (pageNum - 1) + pageSize) == pageSize * pageNum
  {
    assert pageSize * (pageNum - 1) == pageSize * pageNum - pageSize;
    assert pageSize * (pageNum - 1) >= 0;
    Wrap32Fits(pageSize * (pageNum - 1));
    Wrap32Fits(pageSize * pageNum);
  }

  function Slice(s: seq<Item>, from: nat, to: nat): seq<Item> {
    var stop := if to > |s| then |s| else to;
    if from >= stop then [] else s[from..stop]
  }

  lemma PageIsSlice(sorted: seq<Item>, all: seq<Item>, size: int, num: int, n: nat)
    requires size > 0 && num >= 1 && size * num <= n && Int32(n)
    requires |sorted| <= |all| && (|sorted| >= n || |sorted| == |all|)
    requires forall j :: 0 <= j < |sorted| ==> sorted[j].score == all[j].score
    ensures var start := size * (num - 1);
            start >= 0 && Paged(sorted, size, num, n).Items?
            && SameScores(Paged(sorted, size, num, n).items, Slice(all, start, start + size))
  {
    PageFits(size, num, n);
  }

  /**
   * What paging makes of any request: past the end nothing, else the page, unless 32 bits do not hold
   * its beginning or its end, when slicing panics.
   */
  lemma PageMeaning(items: seq<Item>, size: int, num: int, topN: int)
    requires Int32(size) && Int32(num) && size > 0 && num >= 1 && items != []
    ensures var start := Wrap32(size * (num - 1));
            Paged(items, size, num, topN) ==
            if start >= |items| then Items([])
            else if start < 0 || start + size >= 0x8000_0000 then Panic
            else Items(Slice(items, start, start + size))
  {
  }

  lemma LeadingScores(desc: bool, replies: seq<Reply>, k: nat, n: nat, i: nat, sorted: seq<Item>, all: seq<Item>)
    requires 0 < n && i < k && RepliesOk(desc, replies, k)
    requires Sorting(desc, RowItems(Fold(desc, [], replies, n), i), sorted)
    requires Sorted(desc, all) && multiset(all) == AllItems(replies, i)
    ensures |sorted| <= |all| && (|sorted| >= n || |sorted| == |all|)
    ensures forall j :: 0 <= j < |sorted| ==> sorted[j].score == all[j].score
  {
    SortedAnswerIsBest(desc, replies, k, n, i, sorted);
    BestScores(desc, sorted, AllItems(replies, i), all);
    assert |multiset(all)| == |all|;
  }

  /** With TopN at least PageSize * PageNum, a page has the scores of that slice of all items in order. */
  lemma PageOfAll(desc: bool, replies: seq<Reply>, k: nat, n: nat, i: nat, sorted: seq<Item>, all: seq<Item>,
                  size: int, num: int)
    requires Int32(n) && i < k && RepliesOk(desc, replies, k)
    requires size > 0 && num >= 1 && size * num <= n
    requires Sorting(desc, RowItems(Fold(desc, [], replies, n), i), sorted)
    requires Sorted(desc, all) && multiset(all) == AllItems(replies, i)
    ensures var start := size * (num - 1);
            start >= 0 && Paged(sorted, size, num, n).Items?
            && SameScores(Paged(sorted, size, num, n).items, Slice(all, start, start + size))
  {
    PageFits(size, num, n);
    LeadingScores(desc, replies, k, n, i, sorted, all);
    PageIsSlice(sorted, all, size, num, n);
  }

  /** Two orders of arrival give answers with the same scores and the same hit count. */
  lemma AnyArrivalOrder(desc: bool, replies: seq<Reply>, other: seq<Reply>, k: nat, n: nat, i: nat, a: seq<Item>,
                        b: seq<Item>)
    requires 0 < n && i < k && RepliesOk(desc, replies, k) && multiset(other) == multiset(replies)
    requires Sorting(desc, RowItems(Fold(desc, [], replies, n), i), a)
    requires Sorting(desc, RowItems(Fold(desc, [], other, n), i), b)
    ensures Paged(a, 0, 0, n).Items? && Paged(b, 0, 0, n).Items?
    ensures SameScores(Paged(a, 0, 0, n).items, Paged(b, 0, 0, n).items)
    ensures RowHits(Fold(desc, [], replies, n), i) == RowHits(Fold(desc, [], other, n), i)
  {
    ArrivalOrder(replies, other, i);
    forall r | 0 <= r < |other| ensures ReplyOk(desc, other[r], k) {
      assert other[r] in multiset(replies) && other[r] in replies;
    }
    var all := SortedExists(desc, AllItems(replies, i));
    TopNOfAll(desc, replies, k, n, i, a, all);
    TopNOfAll(desc, other, k, n, i, b, all);
  }

  /** The order of arrival does not matter. */
  lemma {:induction false} ArrivalOrder(replies: seq<Reply>, other: seq<Reply>, i: nat)
    requires multiset(replies) == multiset(other)
    ensures AllItems(replies, i) == AllItems(other, i) && AllHits(replies, i) == AllHits(other, i)
    decreases |replies|
  {
    assert |multiset(replies)| == |replies| && |multiset(other)| == |other|;
    if replies != [] {
      assert replies[0] in multiset(other) && replies[0] in other;
      var j :| 0 <= j < |other| && other[j] == replies[0];
      Without(replies, 0);
      Without(other, j);
      assert replies[..0] + replies[1..] == replies[1..];
      ArrivalOrder(replies[1..], other[..j] + other[j + 1..], i);
      MoveToFront(other, j, i);
    }
  }

  lemma {:induction false} MoveToFront(replies: seq<Reply>, j: nat, i: nat)
    requires j < |replies|
    ensures AllItems(replies, i) == ItemsOf(replies[j], i) + AllItems(replies[..j] + replies[j + 1..], i)
    ensures AllHits(replies, i) == HitsOf(replies[j], i) + AllHits(replies[..j] + replies[j + 1..], i)
    decreases j
  {
    var rest := replies[..j] + replies[j + 1..];
    if j == 0 {
      assert rest == replies[1..];
    } else {
      MoveToFront(replies[1..], j - 1, i);
      assert replies[1..][..j - 1] + replies[1..][j..] == rest[1..];
    }
  }

  // Replies with different numbers of rows.

  /** Each row of the reply that has a counterpart in the result is merged into that one. */
  ghost predicate RowByRow(desc: bool, acc: seq<Row>, rows: seq<Row>, topN: nat) {
    forall i :: 0 <= i < |acc| && i < |rows| ==>
        MergedRows(desc, acc, rows, topN)[i] == MergeRow(desc, acc[i], rows[i], topN)
  }

  /** No row of the reply is dropped. */
  predicate AllRowsUsed(acc: seq<Row>, rows: seq<Row>) {
    |rows| <= |acc|
  }

  lemma SecondRowLost(desc: bool, acc: seq<Row>, m: nat, topN: nat) returns (rows: seq<Row>)
    requires 1 < m < |acc|
    ensures |rows| == m && !RowByRow(desc, acc, rows, topN)
  {
    rows := seq(m, i => Row(i, 0.0, 0, 0, false, 0, 0, 0, []));
    assert MergedRows(desc, acc, rows, topN)[1].totalHits == acc[1].totalHits;
    assert MergeRow(desc, acc[1], rows[1], topN).totalHits == acc[1].totalHits + 1;
  }

  /**
   * Once there is a result, every reply of m rows is merged row by row if and only if it has at most
   * one row or at least as many as the result. A shorter one is merged by its first row only, and
   * what a longer one has beyond the result is dropped.
   */
  lemma RowByRowIff(desc: bool, acc: seq<Row>, m: nat, topN: nat)
    requires acc != []
    ensures (forall rows :: |rows| == m ==> RowByRow(desc, acc, rows, topN)) <==> m <= 1 || m >= |acc|
    ensures (forall rows :: |rows| == m ==> RowByRow(desc, acc, rows, topN) && AllRowsUsed(acc, rows)) <==>
              m <= 1 || m == |acc|
  {
    if 1 < m < |acc| {
      var rows := SecondRowLost(desc, acc, m, topN);
    } else if m > |acc| {
      var rows := seq(m, i => acc[0]);
      assert RowByRow(desc, acc, rows, topN) && !AllRowsUsed(acc, rows);
    }
  }

  lemma {:induction false} FoldSize(desc: bool, acc: seq<Row>, replies: seq<Reply>, topN: nat)
    requires acc != []
    ensures |Fold(desc, acc, replies, topN)| == |acc|
    decreases replies
  {
    if replies != [] { FoldSize(desc, Step(desc, acc, replies[0], topN), replies[1..], topN); }
  }

  predicate HasRows(reply: Reply) {
    reply.Rows? && reply.rows != []
  }

  /** With k rows per reply the result has k rows as soon as one reply has any. */
  lemma {:induction false} FoldRows(desc: bool, replies: seq<Reply>, k: nat, topN: nat)
    requires RepliesOk(desc, replies, k)
    ensures |Fold(desc, [], replies, topN)| == if exists r :: 0 <= r < |replies| && HasRows(replies[r]) then k else 0
    decreases replies
  {
    if replies != [] {
      if HasRows(replies[0]) {
        FoldSize(desc, replies[0].rows, replies[1..], topN);
      } else {
        assert Step(desc, [], replies[0], topN) == [];
        FoldRows(desc, replies[1..], k, topN);
        assert forall r :: 0 < r < |replies| ==> replies[r] == replies[1..][r - 1];
      }
    }
  }

  /** The same number of rows, and row by row the same hits and the same scores in the answer. */
  ghost predicate SameAnswer(desc: bool, a: seq<Row>, b: seq<Row>, n: nat) {
    && |a| == |b|
    && forall i :: 0 <= i < |a| ==> SameRow(desc, a[i], b[i], n)
  }

  ghost predicate SameRow(desc: bool, a: Row, b: Row, n: nat) {
    && a.totalHits == b.totalHits
    && forall s, t :: Sorting(desc, a.items, s) && Sorting(desc, b.items, t) ==>
         && Paged(s, 0, 0, n).Items? && Paged(t, 0, 0, n).Items?
         && SameScores(Paged(s, 0, 0, n).items, Paged(t, 0, 0, n).items)
  }

  /** Every order of arrival gives the same answer. */
  ghost predicate OrderFree(desc: bool, replies: seq<Reply>, n: nat) {
    forall other: seq<Reply> :: multiset(other) == multiset(replies) ==>
      SameAnswer(desc, Fold(desc, [], replies, n), Fold(desc, [], other, n), n)
  }

  ghost predicate SortedReplies(desc: bool, replies: seq<Reply>) {
    forall r :: 0 <= r < |replies| && replies[r].Rows? ==>
      forall i :: 0 <= i < |replies[r].rows| ==> Sorted(desc, replies[r].rows[i].items)
  }

  predicate EqualRowCounts(replies: seq<Reply>) {
    forall r, q :: 0 <= r < |replies| && 0 <= q < |replies| && HasRows(replies[r]) && HasRows(replies[q]) ==>
      |replies[r].rows| == |replies[q].rows|
  }

  lemma EqualCountsAreOrderFree(desc: bool, replies: seq<Reply>, k: nat, n: nat, other: seq<Reply>)
    requires n > 0 && RepliesOk(desc, replies, k) && multiset(other) == multiset(replies)
    ensures SameAnswer(desc, Fold(desc, [], replies, n), Fold(desc, [], other, n), n)
  {
    forall x ensures x in other <==> x in replies { assert x in multiset(other) <==> x in multiset(replies); }
    FoldRows(desc, replies, k, n);
    forall r | 0 <= r < |other| ensures ReplyOk(desc, other[r], k) { assert other[r] in replies; }
    FoldRows(desc, other, k, n);
    var a, b := Fold(desc, [], replies, n), Fold(desc, [], other, n);
    assert |a| == |b| by {
      if r :| 0 <= r < |replies| && HasRows(replies[r]) {
        assert replies[r] in other;
        var q :| 0 <= q < |other| && other[q] == replies[r];
      }
      if q :| 0 <= q < |other| && HasRows(other[q]) {
        assert other[q] in replies;
        var r :| 0 <= r < |replies| && replies[r] == other[q];
      }
    }
    forall i | 0 <= i < |a| ensures SameRow(desc, a[i], b[i], n) {
      var s0 := SortedExists(desc, multiset(a[i].items));
      var t0 := SortedExists(desc, multiset(b[i].items));
      AnyArrivalOrder(desc, replies, other, k, n, i, s0, t0);
      forall s, t | Sorting(desc, a[i].items, s) && Sorting(desc, b[i].items, t)
        ensures Paged(s, 0, 0, n).Items? && Paged(t, 0, 0, n).Items?
                && SameScores(Paged(s, 0, 0, n).items, Paged(t, 0, 0, n).items)
      {
        AnyArrivalOrder(desc, replies, other, k, n, i, s, t);
      }
    }
  }

  /** Whichever reply arrives first decides the number of rows. */
  lemma FirstDecides(desc: bool, replies: seq<Reply>, r: nat, n: nat) returns (other: seq<Reply>)
    requires r < |replies| && HasRows(replies[r])
    ensures multiset(other) == multiset(replies) && |Fold(desc, [], other, n)| == |replies[r].rows|
  {
    var rest := replies[..r] + replies[r + 1..];
    other := [replies[r]] + rest;
    Without(replies, r);
    assert replies[r] in multiset(replies);
    assert other[1..] == rest;
    FoldSize(desc, replies[r].rows, rest, n);
  }

  /** The answer does not depend on the order of arrival if and only if all replies with rows have equally many. */
  lemma OrderFreeIff(desc: bool, replies: seq<Reply>, n: nat)
    requires n > 0 && SortedReplies(desc, replies)
    ensures OrderFree(desc, replies, n) <==> EqualRowCounts(replies)
  {
    if EqualRowCounts(replies) {
      var k := 0;
      if r :| 0 <= r < |replies| && HasRows(replies[r]) { k := |replies[r].rows|; }
      forall other: seq<Reply> | multiset(other) == multiset(replies)
        ensures SameAnswer(desc, Fold(desc, [], replies, n), Fold(desc, [], other, n), n)
      {
        EqualCountsAreOrderFree(desc, replies, k, n, other);
      }
    } else {
      var r, q :| 0 <= r < |replies| && 0 <= q < |replies| && HasRows(replies[r]) && HasRows(replies[q])
                  && |replies[r].rows| != |replies[q].rows|;
      var a := FirstDecides(desc, replies, r, n);
      var b := FirstDecides(desc, replies, q, n);
    }
  }
}
