/**
 * What the folded reply says besides its items: status counters and hits are sums over the partitions
 * that answered, the largest score and time are maxima, and a query timed out only if it did everywhere.
 */
module MergeStatus {
  import opened MergeSearch

  /** The rows for query i, in order of arrival. */
  function RowsFor(replies: seq<Reply>, i: nat): seq<Row> {
    if replies == [] then []
    else RowFor(replies[0], i) + RowsFor(replies[1..], i)
  }

  function RowFor(reply: Reply, i: nat): seq<Row> {
    if RepliesTo(reply, i) then [reply.rows[i]] else []
  }

  function Sum(xs: seq<int>): int {
    if xs == [] then 0 else Sum(xs[..|xs| - 1]) + xs[|xs| - 1]
  }

  /** The row at position j is the first of those that took longest. */
  predicate Slowest(rows: seq<Row>, j: nat) {
    && j < |rows|
    && (forall l :: 0 <= l < |rows| ==> rows[l].maxTook <= rows[j].maxTook)
    && (forall l :: 0 <= l < j ==> rows[l].maxTook < rows[j].maxTook)
  }

  /** Hits and status counters, one sequence each. */
  function HitsIn(rows: seq<Row>): seq<int> {
    seq(|rows|, j requires 0 <= j < |rows| => rows[j].totalHits)
  }

  function TotalsIn(rows: seq<Row>): seq<int> {
    seq(|rows|, j requires 0 <= j < |rows| => rows[j].total)
  }

  function FailedIn(rows: seq<Row>): seq<int> {
    seq(|rows|, j requires 0 <= j < |rows| => rows[j].failed)
  }

  function SuccessfulIn(rows: seq<Row>): seq<int> {
    seq(|rows|, j requires 0 <= j < |rows| => rows[j].successful)
  }

  predicate SumsUp(row: Row, rows: seq<Row>) {
    && row.totalHits == Sum(HitsIn(rows)) && row.total == Sum(TotalsIn(rows))
    && row.failed == Sum(FailedIn(rows)) && row.successful == Sum(SuccessfulIn(rows))
  }

  ghost predicate Peaks(row: Row, rows: seq<Row>) {
    && (exists j :: 0 <= j < |rows| && row.maxScore == rows[j].maxScore)
    && (forall j :: 0 <= j < |rows| ==> rows[j].maxScore <= row.maxScore)
    && (exists j: nat :: Slowest(rows, j) && row.maxTook == rows[j].maxTook && row.maxTookId == rows[j].maxTookId)
    && (row.timeout <==> forall j :: 0 <= j < |rows| ==> rows[j].timeout)
  }

  lemma SumSnoc(xs: seq<int>, x: int)
    ensures Sum(xs + [x]) == Sum(xs) + x
  {
    assert (xs + [x])[..|xs|] == xs;
  }

  lemma SumsUpStep(desc: bool, row: Row, rows: seq<Row>, b: Row, n: nat)
    requires SumsUp(row, rows)
    ensures SumsUp(MergeRow(desc, row, b, n), rows + [b])
  {
    var more := rows + [b];
    SumSnoc(HitsIn(rows), b.totalHits);
    SumSnoc(TotalsIn(rows), b.total);
    SumSnoc(FailedIn(rows), b.failed);
    SumSnoc(SuccessfulIn(rows), b.successful);
    assert HitsIn(more) == HitsIn(rows) + [b.totalHits] && TotalsIn(more) == TotalsIn(rows) + [b.total];
    assert FailedIn(more) == FailedIn(rows) + [b.failed] && SuccessfulIn(more) == SuccessfulIn(rows) + [b.successful];
  }

  lemma PeaksStep(desc: bool, row: Row, rows: seq<Row>, b: Row, n: nat)
    requires Peaks(row, rows)
    ensures Peaks(MergeRow(desc, row, b, n), rows + [b])
  {
    var more, merged := rows + [b], MergeRow(desc, row, b, n);
    assert forall j :: 0 <= j < |rows| ==> more[j] == rows[j];
    assert more[|rows|] == b;
    var best :| 0 <= best < |rows| && row.maxScore == rows[best].maxScore;
    assert merged.maxScore == more[if b.maxScore > row.maxScore then |rows| else best].maxScore;
    var j: nat :| Slowest(rows, j) && row.maxTook == rows[j].maxTook && row.maxTookId == rows[j].maxTookId;
    var k := if b.maxTook > row.maxTook then |rows| else j;
    assert Slowest(more, k) && merged.maxTook == more[k].maxTook && merged.maxTookId == more[k].maxTookId;
  }

  /** What the accumulator says of the rows seen so far. */
  ghost predicate Tells(acc: seq<Row>, k: nat, i: nat, rows: seq<Row>) {
    if acc == [] then rows == []
    else |acc| == k && i < k && rows != [] && SumsUp(acc[i], rows) && Peaks(acc[i], rows)
  }

  lemma OneRow(row: Row)
    ensures SumsUp(row, [row]) && Peaks(row, [row])
  {
    assert forall x: int :: Sum([x]) == x by {
      forall x: int ensures Sum([x]) == x { assert [x][..0] == []; }
    }
    assert HitsIn([row]) == [row.totalHits] && TotalsIn([row]) == [row.total];
    assert FailedIn([row]) == [row.failed] && SuccessfulIn([row]) == [row.successful];
    assert [row][0] == row && Slowest([row], 0);
  }

  predicate Regular(reply: Reply, k: nat) {
    reply.Rows? ==> |reply.rows| == 0 || |reply.rows| == k
  }

  lemma StepTells(desc: bool, acc: seq<Row>, reply: Reply, k: nat, n: nat, i: nat, rows: seq<Row>)
    requires i < k && Regular(reply, k) && Tells(acc, k, i, rows)
    ensures Tells(Step(desc, acc, reply, n), k, i, rows + RowFor(reply, i))
  {
    if !RepliesTo(reply, i) {
      assert rows + [] == rows;
    } else if acc == [] {
      assert rows + [reply.rows[i]] == [reply.rows[i]];
      OneRow(reply.rows[i]);
    } else {
      SumsUpStep(desc, acc[i], rows, reply.rows[i], n);
      PeaksStep(desc, acc[i], rows, reply.rows[i], n);
    }
  }

  lemma Regrouped(a: seq<Row>, b: seq<Row>, c: seq<Row>)
    ensures a + b + c == a + (b + c)
  {
  }

  lemma {:induction false} FoldTells(desc: bool, acc: seq<Row>, replies: seq<Reply>, k: nat, n: nat, i: nat,
                                     rows: seq<Row>)
    requires i < k && Tells(acc, k, i, rows) && forall r :: 0 <= r < |replies| ==> Regular(replies[r], k)
    ensures Tells(Fold(desc, acc, replies, n), k, i, rows + RowsFor(replies, i))
    decreases replies
  {
    if replies == [] {
      assert rows + [] == rows;
    } else {
      StepTells(desc, acc, replies[0], k, n, i, rows);
      FoldTells(desc, Step(desc, acc, replies[0], n), replies[1..], k, n, i, rows + RowFor(replies[0], i));
      Regrouped(rows, RowFor(replies[0], i), RowsFor(replies[1..], i));
    }
  }

  /**
   * The answer to query i, over all partitions that answered it: hits and status counters are their
   * sums, the score and the time are the largest, the partition named is the first that took that
   * long, and the answer is marked timed out exactly when all were.
   */
  lemma StatusOfAll(desc: bool, replies: seq<Reply>, k: nat, n: nat, i: nat)
    requires i < k && forall r :: 0 <= r < |replies| ==> Regular(replies[r], k)
    ensures var rows, result := RowsFor(replies, i), Fold(desc, [], replies, n);
            && (result == [] <==> rows == [])
            && (result != [] ==> |result| == k && SumsUp(result[i], rows) && Peaks(result[i], rows))
  {
    FoldTells(desc, [], replies, k, n, i, []);
    assert [] + RowsFor(replies, i) == RowsFor(replies, i);
  }
}
