/**
 * Range partition rules: ValidateRange, RangeIsSame, insertIntoRanges, AddRanges, and which
 * range a timestamp falls in. stamps holds the values ToTimestamp can parse, with the result.
 */
module Ranges {
  import opened Options

  datatype Range = Range(name: string, value: string)

  type Stamps = map<string, int>

  predicate Parses(stamps: Stamps, ranges: seq<Range>) {
    forall i :: 0 <= i < |ranges| ==> ranges[i].value in stamps
  }

  /** Bounds in order, ties allowed. */
  predicate Ascending(stamps: Stamps, ranges: seq<Range>)
    requires Parses(stamps, ranges)
  {
    forall i, j :: 0 <= i < j < |ranges| ==> stamps[ranges[i].value] <= stamps[ranges[j].value]
  }

  predicate RangesOk(stamps: Stamps, ranges: seq<Range>) {
    Parses(stamps, ranges) && Ascending(stamps, ranges)
  }

  /** The binary search of insertIntoRanges; None when it meets a value that does not parse. */
  function Probe(stamps: Stamps, arr: seq<Range>, ts: int, left: nat, right: nat): (p: Option<nat>)
    requires left <= right <= |arr|
    ensures p.Some? ==> left <= p.value <= right
    decreases right - left
  {
    if left == right then Some(left)
    else
      var mid := (left + right) / 2;
      if arr[mid].value !in stamps then None
      else if stamps[arr[mid].value] < ts then Probe(stamps, arr, ts, mid + 1, right)
      else Probe(stamps, arr, ts, left, mid)
  }

  /** On ordered ranges the search finds the first bound not below ts. */
  lemma {:induction false} ProbeIsLowerBound(stamps: Stamps, arr: seq<Range>, ts: int, left: nat, right: nat)
    requires RangesOk(stamps, arr) && left <= right <= |arr|
    requires forall i :: 0 <= i < left ==> stamps[arr[i].value] < ts
    requires forall i :: right <= i < |arr| ==> stamps[arr[i].value] >= ts
    ensures var p := Probe(stamps, arr, ts, left, right);
            && p.Some?
            && (forall i :: 0 <= i < p.value ==> stamps[arr[i].value] < ts)
            && (forall i :: p.value <= i < |arr| ==> stamps[arr[i].value] >= ts)
    decreases right - left
  {
    if left < right {
      var mid := (left + right) / 2;
      if stamps[arr[mid].value] < ts {
        ProbeIsLowerBound(stamps, arr, ts, mid + 1, right);
      } else {
        ProbeIsLowerBound(stamps, arr, ts, left, mid);
      }
    }
  }

  function InsertAt(arr: seq<Range>, p: nat, r: Range): seq<Range>
    requires p <= |arr|
  {
    arr[..p] + [r] + arr[p..]
  }

  function Inserted(stamps: Stamps, arr: seq<Range>, r: Range): Option<seq<Range>> {
    if r.value !in stamps then None
    else
      match Probe(stamps, arr, stamps[r.value], 0, |arr|)
      case None => None
      case Some(p) => Some(InsertAt(arr, p, r))
  }

  function InsertedAll(stamps: Stamps, arr: seq<Range>, added: seq<Range>): Option<seq<Range>>
    decreases added
  {
    if added == [] then Some(arr)
    else
      match Inserted(stamps, arr, added[0])
      case None => None
      case Some(next) => InsertedAll(stamps, next, added[1..])
  }

  /** The search loop. */
  method Search(stamps: Stamps, arr: array<Range>, len: nat, ts: int) returns (p: Option<nat>)
    requires len <= arr.Length
    ensures p == Probe(stamps, arr[..len], ts, 0, len)
  {
    var left, right := 0, len;
    while left < right
      invariant 0 <= left <= right <= len
      invariant Probe(stamps, arr[..len], ts, left, right) == Probe(stamps, arr[..len], ts, 0, len)
    {
      var mid := (left + right) / 2;
      assert arr[..len][mid] == arr[mid];
      if arr[mid].value !in stamps {
        return None;
      }
      if stamps[arr[mid].value] < ts {
        left := mid + 1;
      } else {
        right := mid;
      }
    }
    return Some(left);
  }

  /** copy(arr[left+1:], arr[left:]) and the store. */
  method ShiftIn(arr: array<Range>, len: nat, p: nat, r: Range)
    requires p <= len < arr.Length
    modifies arr
    ensures arr[..len + 1] == InsertAt(old(arr[..len]), p, r)
  {
    var i := len;
    while i > p
      invariant p <= i <= len
      invariant forall k :: 0 <= k <= i ==> arr[k] == old(arr[k])
      invariant forall k :: i < k <= len ==> arr[k] == old(arr[k - 1])
    {
      arr[i] := arr[i - 1];
      i := i - 1;
    }
    arr[p] := r;
    ShiftedIn(old(arr[..len]), arr[..len + 1], p, r);
  }

  lemma ShiftedIn(was: seq<Range>, now: seq<Range>, p: nat, r: Range)
    requires p <= |was| && |now| == |was| + 1 && now[p] == r
    requires forall k :: 0 <= k < p ==> now[k] == was[k]
    requires forall k :: p < k <= |was| ==> now[k] == was[k - 1]
    ensures now == InsertAt(was, p, r)
  {
    assert now == now[..p] + [now[p]] + now[p + 1..];
    assert now[..p] == was[..p] && now[p + 1..] == was[p..];
  }

  /** append: the backing array is reused when it has room, otherwise copied to a larger one. */
  method Grow(arr: array<Range>, len: nat) returns (out: array<Range>)
    requires len <= arr.Length
    ensures len < out.Length && out[..len] == arr[..len]
    ensures if len < arr.Length then out == arr else fresh(out)
  {
    if len < arr.Length {
      return arr;
    }
    out := new Range[2 * len + 1](_ => Range("", ""));
    forall k | 0 <= k < len { out[k] := arr[k]; }
  }

  method InsertIntoRanges(stamps: Stamps, arr: array<Range>, len: nat, r: Range) returns (ok: bool, out: array<Range>)
    requires len <= arr.Length
    modifies arr
    ensures ok <==> Inserted(stamps, old(arr[..len]), r).Some?
    ensures ok ==> len < out.Length && out[..len + 1] == Inserted(stamps, old(arr[..len]), r).value
    ensures ok && len < arr.Length ==> out == arr
    ensures ok && len == arr.Length ==> fresh(out)
    ensures !ok || len == arr.Length ==> arr[..] == old(arr[..])
    ensures !ok ==> out == arr
  {
    if r.value !in stamps {
      return false, arr;
    }
    var p := Search(stamps, arr, len, stamps[r.value]);
    if p.None? {
      return false, arr;
    }
    out := Grow(arr, len);
    ShiftIn(out, len, p.value, r);
    ok := true;
  }

  lemma {:induction false} InsertedAllSnoc(stamps: Stamps, arr: seq<Range>, added: seq<Range>, k: nat)
    requires k < |added|
    ensures var before := InsertedAll(stamps, arr, added[..k]);
            InsertedAll(stamps, arr, added[..k + 1]) == if before.None? then None
                else Inserted(stamps, before.value, added[k])
    decreases k
  {
    if k > 0 {
      assert added[..k][1..] == added[1..][..k - 1] && added[..k + 1][1..] == added[1..][..k];
      if Inserted(stamps, arr, added[0]).Some? {
        InsertedAllSnoc(stamps, Inserted(stamps, arr, added[0]).value, added[1..], k - 1);
      }
    } else {
      assert added[..1][1..] == [];
    }
  }

  lemma {:induction false} InsertedAllFails(stamps: Stamps, arr: seq<Range>, added: seq<Range>, k: nat)
    requires k <= |added| && InsertedAll(stamps, arr, added[..k]).None?
    ensures InsertedAll(stamps, arr, added).None?
    decreases |added| - k
  {
    if k < |added| {
      InsertedAllSnoc(stamps, arr, added, k);
      InsertedAllFails(stamps, arr, added, k + 1);
    } else {
      assert added[..k] == added;
    }
  }

  /** The first k ranges are in. */
  ghost predicate Built(stamps: Stamps, was: seq<Range>, added: seq<Range>, k: nat, sofar: seq<Range>) {
    k <= |added| && InsertedAll(stamps, was, added[..k]) == Some(sofar) && |sofar| == |was| + k
  }

  lemma BuiltStart(stamps: Stamps, was: seq<Range>, added: seq<Range>)
    ensures Built(stamps, was, added, 0, was)
  {
    assert added[..0] == [];
  }

  lemma BuiltStep(stamps: Stamps, was: seq<Range>, added: seq<Range>, k: nat, sofar: seq<Range>)
    requires k < |added| && Built(stamps, was, added, k, sofar)
    ensures Inserted(stamps, sofar, added[k]).Some? ==>
              Built(stamps, was, added, k + 1, Inserted(stamps, sofar, added[k]).value)
    ensures Inserted(stamps, sofar, added[k]).None? ==> InsertedAll(stamps, was, added).None?
  {
    InsertedAllSnoc(stamps, was, added, k);
    if Inserted(stamps, sofar, added[k]).None? { InsertedAllFails(stamps, was, added, k + 1); }
  }

  /** One turn of the loop. */
  method AddNext(stamps: Stamps, out: array<Range>, len: nat, ranges: seq<Range>, done: nat, ghost was: seq<Range>,
                 ghost sofar: seq<Range>)
    returns (fine: bool, next: array<Range>, ghost after: seq<Range>)
    requires done < |ranges| && Built(stamps, was, ranges, done, sofar)
    requires len == |sofar| <= out.Length && out[..len] == sofar
    modifies out
    ensures fine ==> Built(stamps, was, ranges, done + 1, after) && len < next.Length && next[..len + 1] == after
    ensures !fine ==> InsertedAll(stamps, was, ranges).None? && next == out
    ensures fine ==> if len < out.Length then next == out else fresh(next)
    ensures !fine || len == out.Length ==> out[..] == old(out[..])
  {
    BuiltStep(stamps, was, ranges, done, sofar);
    fine, next := InsertIntoRanges(stamps, out, len, ranges[done]);
    after := if fine then next[..len + 1] else sofar;
  }

  /**
   * AddRanges works on the rule's own slice. done is how many ranges went in before a failure, sofar
   * what they made. The rule's slice keeps its contents when it has no spare room; with room for
   * all of them it shows the first part of sofar, also when the call fails.
   */
  method AddRanges(stamps: Stamps, arr: array<Range>, len: nat, ranges: seq<Range>)
    returns (ok: bool, out: array<Range>, done: nat, ghost sofar: seq<Range>)
    requires len <= arr.Length
    modifies arr
    ensures ok <==> InsertedAll(stamps, old(arr[..len]), ranges).Some?
    ensures ok ==>
              && len + |ranges| <= out.Length
              && out[..len + |ranges|] == InsertedAll(stamps, old(arr[..len]), ranges).value
    ensures Built(stamps, old(arr[..len]), ranges, done, sofar) && (ok <==> done == |ranges|)
    ensures len == arr.Length ==> arr[..] == old(arr[..])
    ensures len + |ranges| <= arr.Length ==> arr[..len] == sofar[..len]
  {
    out := arr;
    ghost var was := arr[..len];
    sofar, done := was, 0;
    ok := true;
    BuiltStart(stamps, was, ranges);
    while ok && done < |ranges|
      invariant Built(stamps, was, ranges, done, sofar)
                  && (!ok ==> done < |ranges| && InsertedAll(stamps, was, ranges).None?)
      invariant len + done <= out.Length && out[..len + done] == sofar && (out == arr || fresh(out))
      invariant len == arr.Length ==> arr[..] == old(arr[..]) && (done > 0 ==> out != arr)
      invariant len + |ranges| <= arr.Length ==> out == arr
      decreases ok, |ranges| - done
    {
      var fine, next;
      ghost var after;
      fine, next, after := AddNext(stamps, out, len + done, ranges, done, was, sofar);
      if fine {
        out, done, sofar := next, done + 1, after;
      } else {
        ok := false;
      }
    }
    assert ok ==> ranges[..done] == ranges;
    assert out == arr ==> arr[..len] == out[..len + done][..len];
  }

  // What adding ranges means.

  lemma InsertAtContents(arr: seq<Range>, p: nat, r: Range)
    requires p <= |arr|
    ensures multiset(InsertAt(arr, p, r)) == multiset(arr) + multiset{r}
  {
    assert arr == arr[..p] + arr[p..];
  }

  lemma InsertedOk(stamps: Stamps, arr: seq<Range>, r: Range)
    requires RangesOk(stamps, arr) && r.value in stamps
    ensures Inserted(stamps, arr, r).Some? && RangesOk(stamps, Inserted(stamps, arr, r).value)
    ensures multiset(Inserted(stamps, arr, r).value) == multiset(arr) + multiset{r}
  {
    ProbeIsLowerBound(stamps, arr, stamps[r.value], 0, |arr|);
    InsertAtContents(arr, Probe(stamps, arr, stamps[r.value], 0, |arr|).value, r);
  }

  /** AddRanges on ordered ranges succeeds on values that parse, and gives an ordered permutation of old and new. */
  lemma {:induction false} AddRangesOrders(stamps: Stamps, arr: seq<Range>, added: seq<Range>)
    requires RangesOk(stamps, arr) && Parses(stamps, added)
    ensures InsertedAll(stamps, arr, added).Some?
    ensures RangesOk(stamps, InsertedAll(stamps, arr, added).value)
    ensures multiset(InsertedAll(stamps, arr, added).value) == multiset(arr) + multiset(added)
    decreases added
  {
    if added != [] {
      InsertedOk(stamps, arr, added[0]);
      AddRangesOrders(stamps, Inserted(stamps, arr, added[0]).value, added[1..]);
      assert added == [added[0]] + added[1..];
    }
  }

  /** It fails exactly when some new value does not parse. */
  lemma {:induction false} AddRangesFailsIff(stamps: Stamps, arr: seq<Range>, added: seq<Range>)
    requires RangesOk(stamps, arr)
    ensures InsertedAll(stamps, arr, added).Some? <==> Parses(stamps, added)
    decreases added
  {
    if added != [] && added[0].value in stamps {
      InsertedOk(stamps, arr, added[0]);
      AddRangesFailsIff(stamps, Inserted(stamps, arr, added[0]).value, added[1..]);
      assert added == [added[0]] + added[1..];
    }
  }

  function StampOf(stamps: Stamps, r: Range): int {
    if r.value in stamps then stamps[r.value] else 0
  }

  /** The range a timestamp falls in: the first whose bound is above it. A bad value counts as 0. */
  function Found(stamps: Stamps, ranges: seq<Range>, t: int): Option<Range> {
    if ranges == [] then None
    else if t < StampOf(stamps, ranges[0]) then Some(ranges[0])
    else Found(stamps, ranges[1..], t)
  }

  lemma {:induction false} FoundAt(stamps: Stamps, ranges: seq<Range>, t: int, k: nat)
    requires k <= |ranges| && forall i :: 0 <= i < k ==> StampOf(stamps, ranges[i]) <= t
    requires k < |ranges| ==> t < StampOf(stamps, ranges[k])
    ensures Found(stamps, ranges, t) == if k < |ranges| then Some(ranges[k]) else None
    decreases k
  {
    if k > 0 { FoundAt(stamps, ranges[1..], t, k - 1); }
  }

  lemma {:induction false} FirstAbove(stamps: Stamps, ranges: seq<Range>, t: int) returns (k: nat)
    ensures k <= |ranges| && forall i :: 0 <= i < k ==> StampOf(stamps, ranges[i]) <= t
    ensures k < |ranges| ==> t < StampOf(stamps, ranges[k])
    ensures Found(stamps, ranges, t) == if k < |ranges| then Some(ranges[k]) else None
  {
    k := 0;
    while k < |ranges| && StampOf(stamps, ranges[k]) <= t
      invariant k <= |ranges| && forall i :: 0 <= i < k ==> StampOf(stamps, ranges[i]) <= t
    {
      k := k + 1;
    }
    FoundAt(stamps, ranges, t, k);
  }

  /** A new bound takes the timestamps above which it lies, up to its own and no further than the old bound. */
  predicate Takes(stamps: Stamps, arr: seq<Range>, r: Range, t: int) {
    && t < StampOf(stamps, r)
    && (Found(stamps, arr, t).Some? ==> StampOf(stamps, r) <= StampOf(stamps, Found(stamps, arr, t).value))
  }

  lemma InsertAtFound(stamps: Stamps, arr: seq<Range>, p: nat, r: Range, t: int)
    requires p <= |arr| && forall i :: 0 <= i < p ==> StampOf(stamps, arr[i]) < StampOf(stamps, r)
    requires forall i :: p <= i < |arr| ==> StampOf(stamps, arr[i]) >= StampOf(stamps, r)
    ensures Found(stamps, InsertAt(arr, p, r), t) == if Takes(stamps, arr, r, t) then Some(r) else Found(stamps, arr, t)
  {
    var out := InsertAt(arr, p, r);
    var k := FirstAbove(stamps, arr, t);
    assert forall i :: 0 <= i < p ==> out[i] == arr[i];
    assert out[p] == r;
    assert forall i :: p < i < |out| ==> out[i] == arr[i - 1];
    if k < p {
      FoundAt(stamps, out, t, k);
    } else if t < StampOf(stamps, r) {
      FoundAt(stamps, out, t, p);
    } else {
      FoundAt(stamps, out, t, k + 1);
    }
  }

  lemma InsertedFound(stamps: Stamps, arr: seq<Range>, r: Range, t: int)
    requires RangesOk(stamps, arr) && r.value in stamps
    ensures Inserted(stamps, arr, r).Some?
    ensures Found(stamps, Inserted(stamps, arr, r).value, t) == if Takes(stamps, arr, r, t) then Some(r)
              else Found(stamps, arr, t)
  {
    ProbeIsLowerBound(stamps, arr, stamps[r.value], 0, |arr|);
    InsertAtFound(stamps, arr, Probe(stamps, arr, stamps[r.value], 0, |arr|).value, r, t);
  }

  /** Some new bound lies above t and not above the old bound of t. */
  predicate SomeTakes(stamps: Stamps, arr: seq<Range>, added: seq<Range>, t: int) {
    exists i :: 0 <= i < |added| && Takes(stamps, arr, added[i], t)
  }

  lemma SomeTakesHere(stamps: Stamps, arr: seq<Range>, added: seq<Range>, t: int)
    requires RangesOk(stamps, arr) && Parses(stamps, added) && added != []
    requires Inserted(stamps, arr, added[0]).Some?
    ensures var next := Inserted(stamps, arr, added[0]).value;
            SomeTakes(stamps, arr, added, t) <==>
                Takes(stamps, arr, added[0], t) || SomeTakes(stamps, next, added[1..], t)
  {
    var next := Inserted(stamps, arr, added[0]).value;
    InsertedFound(stamps, arr, added[0], t);
    if SomeTakes(stamps, next, added[1..], t) {
      var i :| 0 <= i < |added[1..]| && Takes(stamps, next, added[1..][i], t);
      assert Takes(stamps, arr, added[0], t) || Takes(stamps, arr, added[i + 1], t);
    }
    if SomeTakes(stamps, arr, added, t) && !Takes(stamps, arr, added[0], t) {
      var i :| 0 <= i < |added| && Takes(stamps, arr, added[i], t);
      assert added[1..][i - 1] == added[i] && Takes(stamps, next, added[1..][i - 1], t);
    }
  }

  /** Of the new bounds that lie above t and not above its old bound, the least; of equal ones, the last. */
  predicate IsTaker(stamps: Stamps, arr: seq<Range>, added: seq<Range>, t: int, k: nat) {
    && k < |added| && Takes(stamps, arr, added[k], t)
    && forall i :: 0 <= i < |added| && Takes(stamps, arr, added[i], t) ==>
         StampOf(stamps, added[k]) < StampOf(stamps, added[i])
             || (StampOf(stamps, added[k]) == StampOf(stamps, added[i]) && i <= k)
  }

  lemma TakerStep(stamps: Stamps, arr: seq<Range>, added: seq<Range>, t: int, k: nat)
    requires RangesOk(stamps, arr) && Parses(stamps, added) && added != [] && Inserted(stamps, arr, added[0]).Some?
    ensures var next := Inserted(stamps, arr, added[0]).value;
            IsTaker(stamps, next, added[1..], t, k) ==> IsTaker(stamps, arr, added, t, k + 1)
  {
    var next, rest := Inserted(stamps, arr, added[0]).value, added[1..];
    InsertedFound(stamps, arr, added[0], t);
    if IsTaker(stamps, next, rest, t, k) {
      forall i | 0 <= i < |added| && Takes(stamps, arr, added[i], t)
        ensures StampOf(stamps, added[k + 1]) < StampOf(stamps, added[i])
                || (StampOf(stamps, added[k + 1]) == StampOf(stamps, added[i]) && i <= k + 1)
      {
        if i > 0 { assert rest[i - 1] == added[i]; }
      }
    }
  }

  ghost predicate TakenBy(stamps: Stamps, arr: seq<Range>, added: seq<Range>, t: int, now: Option<Range>) {
    exists k: nat :: IsTaker(stamps, arr, added, t, k) && now == Some(added[k])
  }

  lemma TakenStep(stamps: Stamps, arr: seq<Range>, added: seq<Range>, t: int, now: Option<Range>)
    requires RangesOk(stamps, arr) && Parses(stamps, added) && added != [] && Inserted(stamps, arr, added[0]).Some?
    requires TakenBy(stamps, Inserted(stamps, arr, added[0]).value, added[1..], t, now)
    ensures TakenBy(stamps, arr, added, t, now)
  {
    var next, rest := Inserted(stamps, arr, added[0]).value, added[1..];
    var k: nat :| IsTaker(stamps, next, rest, t, k) && now == Some(rest[k]);
    TakerStep(stamps, arr, added, t, k);
    assert rest[k] == added[k + 1];
  }

  lemma FirstIsTaker(stamps: Stamps, arr: seq<Range>, added: seq<Range>, t: int)
    requires RangesOk(stamps, arr) && Parses(stamps, added) && added != [] && Inserted(stamps, arr, added[0]).Some?
    requires Takes(stamps, arr, added[0], t) && !SomeTakes(stamps, Inserted(stamps, arr, added[0]).value, added[1..], t)
    ensures IsTaker(stamps, arr, added, t, 0)
  {
    InsertedFound(stamps, arr, added[0], t);
    forall i | 0 < i < |added| && Takes(stamps, arr, added[i], t)
        ensures StampOf(stamps, added[0]) < StampOf(stamps, added[i]) {
      assert added[1..][i - 1] == added[i];
    }
  }

  /**
   * A timestamp falls in a new range if and only if some new bound lies above it and not above its
   * old bound; the range it falls in is the least such one. All others keep theirs.
   */
  lemma {:induction false} TimestampsKeepTheirRange(stamps: Stamps, arr: seq<Range>, added: seq<Range>, t: int)
    requires RangesOk(stamps, arr) && Parses(stamps, added)
    ensures InsertedAll(stamps, arr, added).Some?
    ensures var now := Found(stamps, InsertedAll(stamps, arr, added).value, t);
            if SomeTakes(stamps, arr, added, t) then TakenBy(stamps, arr, added, t, now)
                else now == Found(stamps, arr, t)
    decreases added
  {
    if added != [] {
      InsertedFound(stamps, arr, added[0], t);
      InsertedOk(stamps, arr, added[0]);
      SomeTakesHere(stamps, arr, added, t);
      var next, rest := Inserted(stamps, arr, added[0]).value, added[1..];
      TimestampsKeepTheirRange(stamps, next, rest, t);
      if SomeTakes(stamps, next, rest, t) {
        TakenStep(stamps, arr, added, t, Found(stamps, InsertedAll(stamps, next, rest).value, t));
      } else if Takes(stamps, arr, added[0], t) {
        FirstIsTaker(stamps, arr, added, t);
      }
    }
  }

  // The checks around it.

  const MAX_PARTITIONS := 1024
  const MAX_TOTAL_PARTITIONS := 16384

  /** Range k is named, unlike the earlier ones, and its bound is above theirs. */
  predicate Fits(stamps: Stamps, ranges: seq<Range>, k: nat)
    requires k < |ranges|
  {
    && ranges[k].name != "" && ranges[k].value != "" && ranges[k].value in stamps && stamps[ranges[k].value] >= 0
    && forall i :: 0 <= i < k ==>
         ranges[i].name != ranges[k].name && ranges[i].value != ranges[k].value
         && ranges[i].value in stamps && stamps[ranges[i].value] < stamps[ranges[k].value]
  }

  predicate WellFormed(stamps: Stamps, ranges: seq<Range>) {
    forall k :: 0 <= k < |ranges| ==> Fits(stamps, ranges, k)
  }

  /** What ValidateRange accepts. */
  predicate Accepted(stamps: Stamps, ranges: seq<Range>, partitionNum: nat) {
    && 0 < |ranges| <= MAX_PARTITIONS && |ranges| * partitionNum <= MAX_TOTAL_PARTITIONS
    && WellFormed(stamps, ranges)
  }

  method ValidateRange(stamps: Stamps, ranges: seq<Range>, partitionNum: nat) returns (ok: bool)
    ensures ok <==> Accepted(stamps, ranges, partitionNum)
  {
    if |ranges| == 0 || |ranges| > MAX_PARTITIONS || |ranges| * partitionNum > MAX_TOTAL_PARTITIONS {
      return false;
    }
    ok := ValidateBounds(stamps, ranges);
  }

  method ValidateBounds(stamps: Stamps, ranges: seq<Range>) returns (ok: bool)
    ensures ok <==> WellFormed(stamps, ranges)
  {
    var before := -1;
    var names: set<string>, values: set<string> := {}, {};
    for k := 0 to |ranges|
      invariant forall i :: 0 <= i < k ==> Fits(stamps, ranges, i)
      invariant names == (set i | 0 <= i < k :: ranges[i].name) && values == (set i | 0 <= i < k :: ranges[i].value)
      invariant before >= -1 && forall i :: 0 <= i < k ==>
                  ranges[i].value in stamps && stamps[ranges[i].value] <= before
      invariant before == -1 || exists i :: 0 <= i < k && ranges[i].value in stamps && stamps[ranges[i].value] == before
    {
      var r := ranges[k];
      if r.name == "" || r.name in names || r.value in values || r.value == "" || r.value !in stamps
          || stamps[r.value] <= before {
        assert !Fits(stamps, ranges, k);
        return false;
      }
      names, values, before := names + {r.name}, values + {r.value}, stamps[r.value];
    }
    return true;
  }

  predicate Alike(a: Range, b: Range) {
    a.name == b.name || a.value == b.value
  }

  predicate Repeats(rule: seq<Range>, k: nat)
    requires k <= |rule|
  {
    exists j :: 0 <= j < k && Meets(rule, j, rule[j])
  }

  /** r is like one of the first k. */
  predicate Meets(rule: seq<Range>, k: nat, r: Range)
    requires k <= |rule|
  {
    exists i :: 0 <= i < k && Alike(rule[i], r)
  }

  /** RangeIsSame: a name or value appears twice in the rule, or in the rule and in the new ranges. */
  predicate Clashes(rule: seq<Range>, added: seq<Range>) {
    Repeats(rule, |rule|) || exists j :: 0 <= j < |added| && Meets(rule, |rule|, added[j])
  }

  function NamesOf(rule: seq<Range>, k: nat): set<string>
    requires k <= |rule|
  {
    set i | 0 <= i < k :: rule[i].name
  }

  function ValuesOf(rule: seq<Range>, k: nat): set<string>
    requires k <= |rule|
  {
    set i | 0 <= i < k :: rule[i].value
  }

  lemma MeetsIff(rule: seq<Range>, k: nat, r: Range)
    requires k <= |rule|
    ensures Meets(rule, k, r) <==> r.name in NamesOf(rule, k) || r.value in ValuesOf(rule, k)
  {
    if r.name in NamesOf(rule, k) {
      var i :| 0 <= i < k && rule[i].name == r.name;
      assert Alike(rule[i], r);
    }
    if r.value in ValuesOf(rule, k) {
      var i :| 0 <= i < k && rule[i].value == r.value;
      assert Alike(rule[i], r);
    }
  }

  /** The first loop fills the maps. */
  method Collect(rule: seq<Range>) returns (same: bool, names: set<string>, values: set<string>)
    ensures same <==> Repeats(rule, |rule|)
    ensures !same ==> names == NamesOf(rule, |rule|) && values == ValuesOf(rule, |rule|)
  {
    names, values := {}, {};
    for k := 0 to |rule|
      invariant !Repeats(rule, k)
      invariant names == NamesOf(rule, k) && values == ValuesOf(rule, k)
    {
      MeetsIff(rule, k, rule[k]);
      if rule[k].name in names || rule[k].value in values {
        return true, names, values;
      }
      names, values := names + {rule[k].name}, values + {rule[k].value};
    }
    return false, names, values;
  }

  method RangeIsSame(rule: seq<Range>, added: seq<Range>) returns (same: bool)
    ensures same <==> Clashes(rule, added)
  {
    var own, names, values := Collect(rule);
    if own {
      return true;
    }
    for k := 0 to |added|
      invariant forall j :: 0 <= j < k ==> !Meets(rule, |rule|, added[j])
    {
      MeetsIff(rule, |rule|, added[k]);
      if added[k].name in names || added[k].value in values {
        return true;
      }
    }
    return false;
  }

  // When the rule is well formed after new ranges went in.

  /** Named, with a bound that is not negative. */
  predicate Good(stamps: Stamps, r: Range) {
    r.name != "" && r.value != "" && r.value in stamps && stamps[r.value] >= 0
  }

  /** Different names and different instants. */
  predicate Apart(stamps: Stamps, a: Range, b: Range) {
    a.name != b.name && StampOf(stamps, a) != StampOf(stamps, b)
  }

  predicate Tidy(stamps: Stamps, ranges: seq<Range>) {
    && (forall i :: 0 <= i < |ranges| ==> Good(stamps, ranges[i]))
    && (forall i, j :: 0 <= i < j < |ranges| ==> Apart(stamps, ranges[i], ranges[j]))
  }

  lemma WellFormedIsTidy(stamps: Stamps, ranges: seq<Range>)
    ensures WellFormed(stamps, ranges) <==> RangesOk(stamps, ranges) && Tidy(stamps, ranges)
  {
    if WellFormed(stamps, ranges) {
      forall i | 0 <= i < |ranges| ensures Good(stamps, ranges[i]) { assert Fits(stamps, ranges, i); }
      forall i, j | 0 <= i < j < |ranges|
        ensures Apart(stamps, ranges[i], ranges[j]) && StampOf(stamps, ranges[i]) < StampOf(stamps, ranges[j])
      {
        assert Fits(stamps, ranges, j);
      }
    }
    if RangesOk(stamps, ranges) && Tidy(stamps, ranges) {
      forall k | 0 <= k < |ranges| ensures Fits(stamps, ranges, k) {
        forall i | 0 <= i < k
            ensures ranges[i].value in stamps && stamps[ranges[i].value] < stamps[ranges[k].value]
                      && ranges[i].name != ranges[k].name {
          assert Apart(stamps, ranges[i], ranges[k]);
        }
      }
    }
  }

  ghost predicate TidyBag(stamps: Stamps, bag: multiset<Range>) {
    && (forall r :: r in bag ==> Good(stamps, r) && bag[r] == 1)
    && (forall a, b :: a in bag && b in bag && a != b ==> Apart(stamps, a, b))
  }

  lemma Without(s: seq<Range>, i: nat)
    requires i < |s|
    ensures multiset(s) == multiset(s[..i]) + multiset{s[i]} + multiset(s[i + 1..])
  {
    assert s == s[..i] + [s[i]] + s[i + 1..];
  }

  lemma TidyIsTidyBag(stamps: Stamps, s: seq<Range>)
    ensures Tidy(stamps, s) <==> TidyBag(stamps, multiset(s))
  {
    var bag := multiset(s);
    if Tidy(stamps, s) {
      forall r | r in bag ensures Good(stamps, r) && bag[r] == 1 {
        assert r in s;
        var i :| 0 <= i < |s| && s[i] == r;
        Without(s, i);
        assert Apart(stamps, r, r) <==> false;
        assert r !in s[..i] && r !in s[i + 1..];
      }
      forall a, b | a in bag && b in bag && a != b ensures Apart(stamps, a, b) {
        assert a in s && b in s;
        var i :| 0 <= i < |s| && s[i] == a;
        var j :| 0 <= j < |s| && s[j] == b;
        assert Apart(stamps, s[if i < j then i else j], s[if i < j then j else i]);
      }
    }
    if TidyBag(stamps, bag) {
      forall i | 0 <= i < |s| ensures Good(stamps, s[i]) { assert s[i] in bag; }
      forall i, j | 0 <= i < j < |s| ensures Apart(stamps, s[i], s[j]) {
        Without(s, i);
        assert s[i + 1..][j - i - 1] == s[j];
        assert s[j] in multiset(s[i + 1..]) && s[i] in bag && s[j] in bag;
      }
    }
  }

  /**
   * After new ranges that pass RangeIsSame the rule is well formed if and only if the new ranges are
   * named, with bounds that are not negative, differ from each other in name and instant, and no new
   * bound is at the instant of an old one.
   */
  lemma AddedWellFormedIff(stamps: Stamps, rule: seq<Range>, added: seq<Range>)
    requires WellFormed(stamps, rule) && Parses(stamps, added) && !Clashes(rule, added)
    ensures InsertedAll(stamps, rule, added).Some?
    ensures WellFormed(stamps, InsertedAll(stamps, rule, added).value) <==>
              Tidy(stamps, added) && MissAll(stamps, rule, added)
  {
    WellFormedIsTidy(stamps, rule);
    AddRangesOrders(stamps, rule, added);
    var out, all := InsertedAll(stamps, rule, added).value, rule + added;
    WellFormedIsTidy(stamps, out);
    TidyIsTidyBag(stamps, out);
    TidyIsTidyBag(stamps, all);
    assert multiset(out) == multiset(all);
    TidyConcat(stamps, rule, added);
    forall i, j | 0 <= i < |rule| && 0 <= j < |added| ensures rule[i].name != added[j].name {
      assert !Meets(rule, |rule|, added[j]);
      assert !Alike(rule[i], added[j]);
    }
  }

  /** No new bound is at the instant of an old one. */
  predicate MissAll(stamps: Stamps, rule: seq<Range>, added: seq<Range>) {
    forall i, j :: 0 <= i < |rule| && 0 <= j < |added| ==> StampOf(stamps, rule[i]) != StampOf(stamps, added[j])
  }

  lemma SizeOfBoth(out: seq<Range>, a: seq<Range>, b: seq<Range>)
    requires multiset(out) == multiset(a) + multiset(b)
    ensures |out| == |a| + |b|
  {
    assert |multiset(out)| == |multiset(a) + multiset(b)|;
  }

  /**
   * ValidateRange, which the master does not call again, accepts the new rule if and only if also its
   * limits are kept.
   */
  lemma AddedAcceptedIff(stamps: Stamps, rule: seq<Range>, added: seq<Range>, partitionNum: nat)
    requires Accepted(stamps, rule, partitionNum) && Parses(stamps, added) && !Clashes(rule, added)
    ensures InsertedAll(stamps, rule, added).Some?
    ensures var n := |rule| + |added|;
            Accepted(stamps, InsertedAll(stamps, rule, added).value, partitionNum) <==>
              && n <= MAX_PARTITIONS && n * partitionNum <= MAX_TOTAL_PARTITIONS
              && Tidy(stamps, added) && MissAll(stamps, rule, added)
  {
    AddedWellFormedIff(stamps, rule, added);
    WellFormedIsTidy(stamps, rule);
    AddRangesOrders(stamps, rule, added);
    var out := InsertedAll(stamps, rule, added).value;
    SizeOfBoth(out, rule, added);
  }

  lemma TidyConcat(stamps: Stamps, a: seq<Range>, b: seq<Range>)
    ensures Tidy(stamps, a + b) <==>
              && Tidy(stamps, a) && Tidy(stamps, b)
              && forall i, j :: 0 <= i < |a| && 0 <= j < |b| ==> Apart(stamps, a[i], b[j])
  {
    var all := a + b;
    if Tidy(stamps, all) {
      forall i | 0 <= i < |a| ensures Good(stamps, a[i]) { assert all[i] == a[i]; }
      forall j | 0 <= j < |b| ensures Good(stamps, b[j]) { assert all[|a| + j] == b[j]; }
      forall i, j | 0 <= i < j < |a| ensures Apart(stamps, a[i], a[j]) { assert Apart(stamps, all[i], all[j]); }
      forall i, j | 0 <= i < j < |b| ensures Apart(stamps, b[i], b[j]) {
        assert Apart(stamps, all[|a| + i], all[|a| + j]);
      }
      forall i, j | 0 <= i < |a| && 0 <= j < |b| ensures Apart(stamps, a[i], b[j]) {
        assert Apart(stamps, all[i], all[|a| + j]);
      }
    }
  }

  /** Two new ranges with one name, or at one instant, pass RangeIsSame and spoil any rule. */
  lemma NewRangesMayClash(stamps: Stamps, rule: seq<Range>, a: Range, b: Range)
    requires WellFormed(stamps, rule) && a.value in stamps && b.value in stamps
    requires a.name == b.name || stamps[a.value] == stamps[b.value]
    requires forall i :: 0 <= i < |rule| ==> !Alike(rule[i], a) && !Alike(rule[i], b)
    ensures !Clashes(rule, [a, b]) && InsertedAll(stamps, rule, [a, b]).Some?
    ensures !WellFormed(stamps, InsertedAll(stamps, rule, [a, b]).value)
  {
    var added := [a, b];
    forall j | 0 <= j < |rule| ensures !Meets(rule, j, rule[j]) { assert Fits(stamps, rule, j); }
    AddedWellFormedIff(stamps, rule, added);
    assert !Apart(stamps, added[0], added[1]);
  }
}
