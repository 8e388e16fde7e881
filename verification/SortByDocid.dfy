/**
 * VectorResult::sort_by_docid: a quicksort that moves docids and distances together, in place,
 * one row of topn results at a time.
 */
module SortByDocid {

  type Pair = (int, real)

  /** The results as pairs. */
  function Zip(a: seq<int>, b: seq<real>): (r: seq<Pair>)
    requires |a| == |b|
    ensures |r| == |a| && forall i :: 0 <= i < |a| ==> r[i] == (a[i], b[i])
  {
    seq(|a|, i requires 0 <= i < |a| => (a[i], b[i]))
  }

  predicate Permuted(s: seq<Pair>, t: seq<Pair>) {
    multiset(s) == multiset(t)
  }

  /** The pairs at positions from low up to and including high. */
  function Part(v: seq<Pair>, low: int, high: int): seq<Pair>
    requires 0 <= low <= high + 1 <= |v|
  {
    v[low..high + 1]
  }

  /** Only positions from low to high differ, and they hold the same pairs. */
  ghost predicate Rearranged(v: seq<Pair>, w: seq<Pair>, low: int, high: int) {
    && 0 <= low <= high + 1 <= |v| && |w| == |v| && Permuted(Part(v, low, high), Part(w, low, high))
    && (forall k :: 0 <= k < low || high < k < |v| ==> w[k] == v[k])
  }

  lemma RearrangedAgain(u: seq<Pair>, v: seq<Pair>, w: seq<Pair>, low: int, high: int)
    requires Rearranged(u, v, low, high) && Rearranged(v, w, low, high)
    ensures Rearranged(u, w, low, high)
  {
  }

  lemma ThreeParts(v: seq<Pair>, wideLow: int, low: int, high: int, wideHigh: int)
    requires 0 <= wideLow <= low <= high + 1 <= wideHigh + 1 <= |v|
    ensures multiset(Part(v, wideLow, wideHigh)) ==
            multiset(Part(v, wideLow, low - 1)) + multiset(Part(v, low, high)) + multiset(Part(v, high + 1, wideHigh))
  {
    assert Part(v, wideLow, wideHigh) == Part(v, wideLow, low - 1) + Part(v, low, high) + Part(v, high + 1, wideHigh);
  }

  lemma SamePart(v: seq<Pair>, w: seq<Pair>, low: int, high: int)
    requires 0 <= low <= high + 1 <= |v| == |w| && forall k :: low <= k <= high ==> w[k] == v[k]
    ensures Part(v, low, high) == Part(w, low, high)
  {
  }

  /** A change inside a part of a range is a change of the range. */
  lemma Widen(v: seq<Pair>, w: seq<Pair>, low: int, high: int, wideLow: int, wideHigh: int)
    requires Rearranged(v, w, low, high) && 0 <= wideLow <= low && high <= wideHigh < |v|
    ensures Rearranged(v, w, wideLow, wideHigh)
  {
    ThreeParts(v, wideLow, low, high, wideHigh);
    ThreeParts(w, wideLow, low, high, wideHigh);
    SamePart(v, w, wideLow, low - 1);
    SamePart(v, w, high + 1, wideHigh);
  }

  function Swap(v: seq<Pair>, i: int, j: int): seq<Pair>
    requires 0 <= i < |v| && 0 <= j < |v|
  {
    v[i := v[j]][j := v[i]]
  }

  lemma SwapRearranges(v: seq<Pair>, i: int, j: int)
    requires 0 <= i <= j < |v|
    ensures Rearranged(v, Swap(v, i, j), i, j)
  {
    if i < j {
      var w, mid := Swap(v, i, j), v[i + 1..j];
      assert Part(v, i, j) == [v[i]] + mid + [v[j]];
      assert Part(w, i, j) == [v[j]] + mid + [v[i]];
    } else {
      assert Swap(v, i, j) == v;
    }
  }

  /** v is what the arrays hold once the pair in hand is put into the hole. */
  ghost predicate Holds(v: seq<Pair>, docids: array<int>, dists: array<real>, hole: int, inHand: Pair)
    reads docids, dists
  {
    && docids.Length == dists.Length == |v| && 0 <= hole < |v| && v[hole] == inHand
    && forall k :: 0 <= k < |v| && k != hole ==> v[k] == (docids[k], dists[k])
  }

  /** Filling the hole from another place moves the hole there. */
  method MoveInto(docids: array<int>, dists: array<real>, hole: int, from: int, inHand: Pair, ghost v: seq<Pair>)
    requires Holds(v, docids, dists, hole, inHand) && 0 <= from < |v|
    modifies docids, dists
    ensures Holds(Swap(v, hole, from), docids, dists, from, inHand)
  {
    docids[hole] := docids[from];
    dists[hole] := dists[from];
  }

  /** How far the partition has come: smaller pairs below low, larger ones above high. */
  predicate Parted(v: seq<Pair>, lo: int, low: int, high: int, hi: int, pivot: int) {
    && 0 <= lo <= low <= high <= hi < |v|
    && (forall k :: lo <= k < low ==> v[k].0 <= pivot)
    && (forall k :: high < k <= hi ==> v[k].0 >= pivot)
  }

  /** The first inner loop and its store. */
  method FromRight(docids: array<int>, dists: array<real>, lo: int, low: int, from: int, hi: int, inHand: Pair,
                   ghost v: seq<Pair>)
    returns (high: int, ghost w: seq<Pair>)
    requires low < from && Holds(v, docids, dists, low, inHand) && Parted(v, lo, low, from, hi, inHand.0)
    modifies docids, dists
    ensures low <= high <= from && w == Swap(v, low, high) && Holds(w, docids, dists, high, inHand)
    ensures Parted(w, lo, low, high, hi, inHand.0)
    ensures low < high ==> w[low].0 <= inHand.0
  {
    high := from;
    while low < high && docids[high] >= inHand.0
      invariant low <= high <= from && Parted(v, lo, low, high, hi, inHand.0)
    {
      high := high - 1;
    }
    w := Swap(v, low, high);
    MoveInto(docids, dists, low, high, inHand, v);
  }

  /** The second inner loop and its store. */
  method FromLeft(docids: array<int>, dists: array<real>, lo: int, from: int, high: int, hi: int, inHand: Pair,
                  ghost v: seq<Pair>)
    returns (low: int, ghost w: seq<Pair>)
    requires from <= high && Holds(v, docids, dists, high, inHand) && Parted(v, lo, from, high, hi, inHand.0)
    modifies docids, dists
    ensures from <= low <= high && w == Swap(v, low, high) && Holds(w, docids, dists, low, inHand)
    ensures Parted(w, lo, low, high, hi, inHand.0)
    ensures from < high && v[from].0 <= inHand.0 ==> from < low
  {
    low := from;
    while low < high && docids[low] <= inHand.0
      invariant from <= low <= high && Parted(v, lo, low, high, hi, inHand.0)
      invariant from < high && v[from].0 <= inHand.0 && low == from ==> docids[low] <= inHand.0
    {
      low := low + 1;
    }
    w := Swap(v, low, high);
    MoveInto(docids, dists, high, low, inHand, v);
  }

  method Partition(docids: array<int>, dists: array<real>, lo: int, hi: int) returns (p: int)
    requires docids.Length == dists.Length && 0 <= lo < hi < docids.Length
    modifies docids, dists
    ensures lo <= p <= hi && Rearranged(old(Zip(docids[..], dists[..])), Zip(docids[..], dists[..]), lo, hi)
    ensures var v := Zip(docids[..], dists[..]); Parted(v, lo, p, p, hi, v[p].0)
  {
    var inHand := (docids[lo], dists[lo]);
    ghost var v0 := Zip(docids[..], dists[..]);
    ghost var v := v0;
    var low, high := lo, hi;
    while low < high
      invariant lo <= low <= high <= hi && Holds(v, docids, dists, low, inHand)
                  && Parted(v, lo, low, high, hi, inHand.0)
      invariant Rearranged(v0, v, lo, hi)
      decreases high - low
    {
      ghost var w, u;
      high, w := FromRight(docids, dists, lo, low, high, hi, inHand, v);
      SwapInside(v0, v, low, high, lo, hi);
      low, u := FromLeft(docids, dists, lo, low, high, hi, inHand, w);
      SwapInside(v0, w, low, high, lo, hi);
      v := u;
    }
    docids[low], dists[low] := inHand.0, inHand.1;
    p := low;
    assert Zip(docids[..], dists[..]) == v;
  }

  lemma SwapInside(v0: seq<Pair>, v: seq<Pair>, i: int, j: int, lo: int, hi: int)
    requires Rearranged(v0, v, lo, hi) && 0 <= lo <= i <= j <= hi < |v|
    ensures Rearranged(v0, Swap(v, i, j), lo, hi)
  {
    SwapRearranges(v, i, j);
    Widen(v, Swap(v, i, j), i, j, lo, hi);
    RearrangedAgain(v0, v, Swap(v, i, j), lo, hi);
  }

  predicate Ordered(v: seq<Pair>, low: int, high: int) {
    forall i, j :: 0 <= low <= i < j <= high < |v| ==> v[i].0 <= v[j].0
  }

  /** A bound on all docids of a part survives any rearrangement of it. */
  lemma BoundSurvives(v: seq<Pair>, w: seq<Pair>, low: int, high: int, x: int)
    requires Rearranged(v, w, low, high)
    ensures (forall k :: low <= k <= high ==> v[k].0 <= x) ==> forall k :: low <= k <= high ==> w[k].0 <= x
    ensures (forall k :: low <= k <= high ==> v[k].0 >= x) ==> forall k :: low <= k <= high ==> w[k].0 >= x
  {
    forall k | low <= k <= high ensures exists j :: low <= j <= high && v[j] == w[k] {
      assert Part(w, low, high)[k - low] == w[k];
      assert w[k] in multiset(Part(w, low, high)) && w[k] in Part(v, low, high);
      var j :| 0 <= j < |Part(v, low, high)| && Part(v, low, high)[j] == w[k];
      assert v[low + j] == w[k];
    }
  }

  /** Both sides of the pivot ordered, in turn, make the whole ordered. */
  lemma SidesOrdered(v: seq<Pair>, l: seq<Pair>, r: seq<Pair>, lo: int, p: int, hi: int)
    requires 0 <= lo <= p <= hi < |v| && Parted(v, lo, p, p, hi, v[p].0)
    requires Rearranged(v, l, lo, p - 1) && Ordered(l, lo, p - 1)
    requires Rearranged(l, r, p + 1, hi) && Ordered(r, p + 1, hi)
    ensures Ordered(r, lo, hi)
  {
    BoundSurvives(v, l, lo, p - 1, v[p].0);
    BoundSurvives(l, r, p + 1, hi, v[p].0);
    forall i, j | lo <= i < j <= hi ensures r[i].0 <= r[j].0 {
      assert i <= p ==> r[i] == l[i] && r[i].0 <= v[p].0;
      assert j >= p ==> r[j].0 >= v[p].0;
    }
  }

  lemma BothSides(v0: seq<Pair>, v1: seq<Pair>, v2: seq<Pair>, v3: seq<Pair>, low: int, p: int, high: int)
    requires 0 <= low <= p <= high < |v1| && Rearranged(v0, v1, low, high) && Parted(v1, low, p, p, high, v1[p].0)
    requires Rearranged(v1, v2, low, p - 1) && Ordered(v2, low, p - 1)
    requires Rearranged(v2, v3, p + 1, high) && Ordered(v3, p + 1, high)
    ensures Rearranged(v0, v3, low, high) && Ordered(v3, low, high)
  {
    SidesOrdered(v1, v2, v3, low, p, high);
    Widen(v1, v2, low, p - 1, low, high);
    Widen(v2, v3, p + 1, high, low, high);
    RearrangedAgain(v0, v1, v2, low, high);
    RearrangedAgain(v0, v2, v3, low, high);
  }

  method QuickSort(docids: array<int>, dists: array<real>, low: int, high: int)
    requires docids.Length == dists.Length && 0 <= low <= high + 1 <= docids.Length
    modifies docids, dists
    ensures Rearranged(old(Zip(docids[..], dists[..])), Zip(docids[..], dists[..]), low, high)
    ensures Ordered(Zip(docids[..], dists[..]), low, high)
    decreases high - low
  {
    if low < high {
      ghost var v0 := Zip(docids[..], dists[..]);
      var pivot := Partition(docids, dists, low, high);
      ghost var v1 := Zip(docids[..], dists[..]);
      QuickSort(docids, dists, low, pivot - 1);
      ghost var v2 := Zip(docids[..], dists[..]);
      QuickSort(docids, dists, pivot + 1, high);
      ghost var v3 := Zip(docids[..], dists[..]);
      BothSides(v0, v1, v2, v3, low, pivot, high);
    }
  }

  /** Where row i starts: i * topn. */
  function RowStart(topn: nat, i: nat): nat {
    if i == 0 then 0 else RowStart(topn, i - 1) + topn
  }

  lemma {:induction false} RowStartIsProduct(topn: nat, i: nat)
    ensures RowStart(topn, i) == i * topn
  {
    if i > 0 {
      RowStartIsProduct(topn, i - 1);
      assert i * topn == (i - 1) * topn + topn;
    }
  }

  lemma {:induction false} RowsInOrder(topn: nat, i: nat, j: nat)
    requires i <= j
    ensures RowStart(topn, i) <= RowStart(topn, j)
    decreases j
  {
    if i < j { RowsInOrder(topn, i, j - 1); }
  }

  /** The row at start is in docid order and holds the pairs it held before. */
  ghost predicate RowSorted(v0: seq<Pair>, v: seq<Pair>, start: nat, topn: nat) {
    && |v0| == |v| && start + topn <= |v|
    && Ordered(v, start, start + topn - 1)
         && Permuted(Part(v0, start, start + topn - 1), Part(v, start, start + topn - 1))
  }

  lemma RowKept(v0: seq<Pair>, v: seq<Pair>, w: seq<Pair>, start: nat, topn: nat)
    requires RowSorted(v0, v, start, topn) && |w| == |v| && forall k :: start <= k < start + topn ==> w[k] == v[k]
    ensures RowSorted(v0, w, start, topn)
  {
    SamePart(v, w, start, start + topn - 1);
  }

  lemma RowDone(v0: seq<Pair>, v: seq<Pair>, w: seq<Pair>, start: nat, topn: nat)
    requires |v0| == |v| && Rearranged(v, w, start, start + topn - 1) && Ordered(w, start, start + topn - 1)
    requires forall k :: start <= k < |v| ==> v[k] == v0[k]
    ensures RowSorted(v0, w, start, topn)
  {
    SamePart(v0, v, start, start + topn - 1);
  }

  ghost predicate RowAt(v0: seq<Pair>, v: seq<Pair>, topn: nat, i: nat) {
    RowSorted(v0, v, RowStart(topn, i), topn)
  }

  ghost predicate RowsSorted(v0: seq<Pair>, v: seq<Pair>, topn: nat, n: nat) {
    forall i: nat :: i < n ==> RowAt(v0, v, topn, i)
  }

  /** The first n rows are sorted, the others not yet touched. */
  ghost predicate RowsDone(v0: seq<Pair>, v: seq<Pair>, topn: nat, n: nat) {
    |v0| == |v| && RowsSorted(v0, v, topn, n) && forall k :: RowStart(topn, n) <= k < |v| ==> v[k] == v0[k]
  }

  lemma {:induction false} NextRow(v0: seq<Pair>, v: seq<Pair>, w: seq<Pair>, topn: nat, n: nat)
    requires RowsDone(v0, v, topn, n)
    requires var start := RowStart(topn, n);
             Rearranged(v, w, start, start + topn - 1) && Ordered(w, start, start + topn - 1)
    ensures RowsDone(v0, w, topn, n + 1)
  {
    RowDone(v0, v, w, RowStart(topn, n), topn);
    forall i: nat | i < n ensures RowAt(v0, w, topn, i) {
      assert RowAt(v0, v, topn, i);
      RowsInOrder(topn, i + 1, n);
      RowKept(v0, v, w, RowStart(topn, i), topn);
    }
  }

  method SortRow(docids: array<int>, dists: array<real>, topn: nat, i: nat, start: nat, ghost v0: seq<Pair>)
    requires docids.Length == dists.Length && start == RowStart(topn, i) && start + topn <= docids.Length
    requires RowsDone(v0, Zip(docids[..], dists[..]), topn, i)
    modifies docids, dists
    ensures RowsDone(v0, Zip(docids[..], dists[..]), topn, i + 1)
  {
    ghost var v := Zip(docids[..], dists[..]);
    QuickSort(docids, dists, start, start + topn - 1);
    NextRow(v0, v, Zip(docids[..], dists[..]), topn, i);
  }

  /** sort_by_docid: every row is sorted within itself, and pairs never leave their row. */
  method SortRows(docids: array<int>, dists: array<real>, n: nat, topn: nat)
    requires docids.Length == dists.Length == n * topn
    modifies docids, dists
    ensures RowsSorted(old(Zip(docids[..], dists[..])), Zip(docids[..], dists[..]), topn, n)
  {
    ghost var v0 := Zip(docids[..], dists[..]);
    RowStartIsProduct(topn, n);
    for i := 0 to n
      invariant RowsDone(v0, Zip(docids[..], dists[..]), topn, i)
    {
      RowStartIsProduct(topn, i);
      RowsInOrder(topn, i + 1, n);
      SortRow(docids, dists, topn, i, i * topn, v0);
    }
  }
}
