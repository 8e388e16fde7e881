/**
 * The router's scatter side: which partition a document goes to, how a batch is split over
 * partitions, and how Execute puts the replies back in the order of the batch. hash is the
 * murmur3 hash of a key.
 */
module Routing {
  import opened Ranges
  import opened Options

  datatype Partition = Partition(id: nat, slot: nat, name: string)

  /** stamp is the value of the rule's field, if the document has that field. */
  datatype Doc = Doc(key: string, stamp: Option<int>)

  datatype Space = Space(partitions: seq<Partition>, rule: Option<seq<Range>>, stamps: Stamps)

  // Hash routing.

  predicate Increasing(arr: seq<Partition>) {
    forall i, j :: 0 <= i < j < |arr| ==> arr[i].slot < arr[j].slot
  }

  /** The index the binary search ends with, -1 when it runs off the left end. */
  function Bisect(arr: seq<Partition>, slot: nat, low: nat, high: int): (r: int)
    requires low <= high + 1 <= |arr|
    ensures -1 <= r < |arr|
    decreases high + 1 - low
  {
    if low > high then low - 1
    else
      var mid := (low + high) / 2;
      if arr[mid].slot > slot then Bisect(arr, slot, low, mid - 1)
      else if arr[mid].slot < slot then Bisect(arr, slot, mid + 1, high)
      else mid
  }

  /** PartitionId; None is the index -1, which panics. One partition takes every hash. */
  function PartitionIdOf(arr: seq<Partition>, slot: nat): Option<nat> {
    if |arr| == 1 then Some(arr[0].id)
    else
      var i := Bisect(arr, slot, 0, |arr| - 1);
      if i < 0 then None else Some(arr[i].id)
  }

  method PartitionId(arr: seq<Partition>, slot: nat) returns (r: Option<nat>)
    ensures r == PartitionIdOf(arr, slot)
  {
    if |arr| == 1 {
      return Some(arr[0].id);
    }
    var low, high := 0, |arr| - 1;
    while low <= high
      invariant 0 <= low <= high + 1 <= |arr|
      invariant Bisect(arr, slot, low, high) == Bisect(arr, slot, 0, |arr| - 1)
      decreases high + 1 - low
    {
      var mid := (low + high) / 2;
      var midVal := arr[mid].slot;
      if midVal > slot {
        high := mid - 1;
      } else if midVal < slot {
        low := mid + 1;
      } else {
        return Some(arr[mid].id);
      }
    }
    return if low == 0 then None else Some(arr[low - 1].id);
  }

  /** Partition k owns the hashes from its slot up to the next partition's. */
  predicate Owns(arr: seq<Partition>, k: nat, slot: nat) {
    k < |arr| && arr[k].slot <= slot && (k + 1 < |arr| ==> slot < arr[k + 1].slot)
  }

  lemma {:induction false} BisectFinds(arr: seq<Partition>, slot: nat, low: nat, high: int)
    requires Increasing(arr) && low <= high + 1 <= |arr|
    requires forall i :: 0 <= i < low ==> arr[i].slot < slot
    requires forall i :: high < i < |arr| ==> arr[i].slot > slot
    ensures var r := Bisect(arr, slot, low, high);
            if r < 0 then arr == [] || slot < arr[0].slot else Owns(arr, r, slot)
    decreases high + 1 - low
  {
    if low <= high {
      var mid := (low + high) / 2;
      if arr[mid].slot > slot {
        BisectFinds(arr, slot, low, mid - 1);
      } else if arr[mid].slot < slot {
        BisectFinds(arr, slot, mid + 1, high);
      }
    }
  }

  lemma OneOwner(arr: seq<Partition>, j: nat, k: nat, slot: nat)
    requires Increasing(arr) && Owns(arr, j, slot) && Owns(arr, k, slot)
    ensures j == k
  {
  }

  /**
   * On increasing slots the search finds the one partition with the greatest slot not above the
   * hash, and panics exactly when there is none and the space has not just one partition.
   */
  lemma PartitionIdIsOwner(arr: seq<Partition>, slot: nat)
    requires Increasing(arr)
    ensures PartitionIdOf(arr, slot).None? <==> |arr| != 1 && (arr == [] || slot < arr[0].slot)
    ensures PartitionIdOf(arr, slot).Some? && |arr| != 1 ==>
              exists k: nat :: Owns(arr, k, slot) && arr[k].id == PartitionIdOf(arr, slot).value
                               && forall j: nat :: Owns(arr, j, slot) ==> j == k
  {
    if |arr| != 1 {
      BisectFinds(arr, slot, 0, |arr| - 1);
      var k := Bisect(arr, slot, 0, |arr| - 1);
      if k >= 0 {
        assert Owns(arr, k, slot);
        forall j: nat | Owns(arr, j, slot) ensures j == k { OneOwner(arr, j, k, slot); }
      }
    }
  }

  // Range routing.

  function IdsNamed(arr: seq<Partition>, name: string): seq<nat> {
    if arr == [] then []
    else if arr[0].name == name then [arr[0].id] + IdsNamed(arr[1..], name)
    else IdsNamed(arr[1..], name)
  }

  /** PartitionIdsByRangeField: None is the error for a value above every bound. */
  function IdsByRange(space: Space, ranges: seq<Range>, t: int): Option<seq<nat>> {
    if |space.partitions| == 1 then Some([space.partitions[0].id])
    else
      match Found(space.stamps, ranges, t)
      case None => None
      case Some(r) => Some(IdsNamed(space.partitions, r.name))
  }

  method PartitionIdsByRangeField(space: Space, ranges: seq<Range>, t: int) returns (pids: Option<seq<nat>>)
    ensures pids == IdsByRange(space, ranges, t)
  {
    var arr := space.partitions;
    if |arr| == 1 {
      return Some([arr[0].id]);
    }
    var i := 0;
    while i < |ranges| && t >= StampOf(space.stamps, ranges[i])
      invariant i <= |ranges|
      invariant forall k :: 0 <= k < i ==> StampOf(space.stamps, ranges[k]) <= t
    {
      i := i + 1;
    }
    FoundAt(space.stamps, ranges, t, i);
    if i == |ranges| {
      return None;
    }
    var ids: seq<nat> := [];
    for k := 0 to |arr|
      invariant ids + IdsNamed(arr[k..], ranges[i].name) == IdsNamed(arr, ranges[i].name)
    {
      assert arr[k..][1..] == arr[k + 1..];
      if arr[k].name == ranges[i].name {
        ids := ids + [arr[k].id];
      }
    }
    assert arr[|arr|..] == [] && ids + [] == ids;
    return Some(ids);
  }

  datatype Route = To(id: nat) | Refused | Panics

  /** Which partition one document goes to in UpsertByPartitions. */
  function RouteOf(space: Space, hash: string -> nat, doc: Doc, wanted: seq<nat>): Route {
    match space.rule
    case Some(ranges) =>
      if doc.stamp.None? then Refused
      else
        (match IdsByRange(space, ranges, doc.stamp.value)
         case None => Refused
         case Some(ids) => if ids == [] then Panics else To(ids[hash(doc.key) % |ids|]))
    case None =>
      if wanted != [] then To(wanted[hash(doc.key) % |wanted|])
      else
        match PartitionIdOf(space.partitions, hash(doc.key))
        case None => Panics
        case Some(id) => To(id)
  }

  method RouteDoc(space: Space, hash: string -> nat, doc: Doc, wanted: seq<nat>) returns (route: Route)
    ensures route == RouteOf(space, hash, doc, wanted)
  {
    if space.rule.Some? {
      if doc.stamp.None? {
        return Refused;
      }
      var ids := PartitionIdsByRangeField(space, space.rule.value, doc.stamp.value);
      if ids.None? {
        return Refused;
      }
      if |ids.value| == 1 {
        return To(ids.value[0]);
      }
      return if ids.value == [] then Panics else To(ids.value[hash(doc.key) % |ids.value|]);
    }
    if |wanted| != 0 {
      return To(wanted[hash(doc.key) % |wanted|]);
    }
    var id := PartitionId(space.partitions, hash(doc.key));
    return if id.None? then Panics else To(id.value);
  }

  // What a route means.

  function CountNamed(arr: seq<Partition>, name: string): nat {
    if arr == [] then 0
    else CountNamed(arr[..|arr| - 1], name) + if arr[|arr| - 1].name == name then 1 else 0
  }

  /** Partition j is the q-th of that name, counted from 0. */
  predicate NthNamed(arr: seq<Partition>, name: string, q: nat, j: nat) {
    j < |arr| && arr[j].name == name && CountNamed(arr[..j], name) == q
  }

  /** Range k is the first whose bound is above the value. */
  predicate FirstBound(stamps: Stamps, ranges: seq<Range>, t: int, k: nat) {
    && k < |ranges| && t < StampOf(stamps, ranges[k])
    && forall i :: 0 <= i < k ==> StampOf(stamps, ranges[i]) <= t
  }

  /** By the rule: the document's hash picks among the partitions named after the first range above its value. */
  ghost predicate BelongsByRange(space: Space, ranges: seq<Range>, t: int, h: nat, id: nat) {
    if |space.partitions| == 1 then id == space.partitions[0].id
    else exists k: nat, j: nat :: FirstBound(space.stamps, ranges, t, k)
                                  && CountNamed(space.partitions, ranges[k].name) > 0
                                  && NthNamed(space.partitions, ranges[k].name,
                                              h % CountNamed(space.partitions, ranges[k].name), j)
                                  && space.partitions[j].id == id
  }

  /** By the hash alone: the partition that owns it, or the only one. */
  ghost predicate BelongsByHash(arr: seq<Partition>, h: nat, id: nat) {
    if |arr| == 1 then id == arr[0].id else exists k: nat :: Owns(arr, k, h) && arr[k].id == id
  }

  /** The partition a document belongs to, by the rule, among those asked for, or by its hash. */
  ghost predicate Belongs(space: Space, hash: string -> nat, doc: Doc, wanted: seq<nat>, id: nat) {
    match space.rule
    case Some(ranges) => doc.stamp.Some? && BelongsByRange(space, ranges, doc.stamp.value, hash(doc.key), id)
    case None =>
      if wanted != [] then id == wanted[hash(doc.key) % |wanted|]
      else BelongsByHash(space.partitions, hash(doc.key), id)
  }

  lemma {:induction false} CountUpTo(arr: seq<Partition>, name: string, i: nat, j: nat)
    requires i <= j <= |arr|
    ensures CountNamed(arr[..i], name) <= CountNamed(arr[..j], name)
    ensures i < j && arr[i].name == name ==> CountNamed(arr[..i], name) < CountNamed(arr[..j], name)
    decreases j
  {
    if i < j {
      assert arr[..j][..j - 1] == arr[..j - 1];
      CountUpTo(arr, name, i, j - 1);
    }
  }

  lemma OneNth(arr: seq<Partition>, name: string, q: nat, i: nat, j: nat)
    requires NthNamed(arr, name, q, i) && NthNamed(arr, name, q, j)
    ensures i == j
  {
    if i < j { CountUpTo(arr, name, i, j); }
    if j < i { CountUpTo(arr, name, j, i); }
  }

  lemma {:induction false} IdsNamedSnoc(arr: seq<Partition>, name: string)
    requires arr != []
    ensures var n := |arr| - 1;
            IdsNamed(arr, name) == IdsNamed(arr[..n], name) + if arr[n].name == name then [arr[n].id] else []
  {
    var n := |arr| - 1;
    if n > 0 {
      assert arr[1..][..n - 1] == arr[..n][1..];
      IdsNamedSnoc(arr[1..], name);
    }
  }

  lemma {:induction false} IdsNamedCount(arr: seq<Partition>, name: string)
    ensures |IdsNamed(arr, name)| == CountNamed(arr, name)
  {
    if arr != [] {
      IdsNamedSnoc(arr, name);
      IdsNamedCount(arr[..|arr| - 1], name);
    }
  }

  lemma {:induction false} IdsNamedNth(arr: seq<Partition>, name: string, q: nat) returns (j: nat)
    requires q < |IdsNamed(arr, name)|
    ensures NthNamed(arr, name, q, j) && arr[j].id == IdsNamed(arr, name)[q]
  {
    var n := |arr| - 1;
    IdsNamedSnoc(arr, name);
    IdsNamedCount(arr[..n], name);
    if q < CountNamed(arr[..n], name) {
      j := IdsNamedNth(arr[..n], name, q);
      assert arr[..n][..j] == arr[..j];
    } else {
      j := n;
    }
  }

  lemma {:induction false} FoundIsFirst(stamps: Stamps, ranges: seq<Range>, t: int) returns (k: nat)
    ensures k <= |ranges| && forall i :: 0 <= i < k ==> StampOf(stamps, ranges[i]) <= t
    ensures k < |ranges| ==> FirstBound(stamps, ranges, t, k)
    ensures Found(stamps, ranges, t) == if k < |ranges| then Some(ranges[k]) else None
  {
    k := 0;
    if ranges != [] && StampOf(stamps, ranges[0]) <= t {
      var rest := FoundIsFirst(stamps, ranges[1..], t);
      k := rest + 1;
      forall i | 0 <= i < k ensures StampOf(stamps, ranges[i]) <= t {
        if i > 0 { assert ranges[i] == ranges[1..][i - 1]; }
      }
    }
  }

  lemma RangeRoute(space: Space, ranges: seq<Range>, t: int, h: nat, id: nat)
    ensures var ids := IdsByRange(space, ranges, t);
            BelongsByRange(space, ranges, t, h, id) <==>
            ids.Some? && ids.value != [] && ids.value[h % |ids.value|] == id
  {
    var arr := space.partitions;
    if |arr| != 1 {
      var k := FoundIsFirst(space.stamps, ranges, t);
      if k < |ranges| {
        var name := ranges[k].name;
        IdsNamedCount(arr, name);
        var ids := IdsNamed(arr, name);
        if ids != [] {
          var j := IdsNamedNth(arr, name, h % |ids|);
          forall k2: nat, j2: nat
            | FirstBound(space.stamps, ranges, t, k2) && NthNamed(arr, ranges[k2].name, h % |ids|, j2)
            ensures k2 == k && j2 == j
          {
            assert k2 == k;
            OneNth(arr, name, h % |ids|, j, j2);
          }
        }
      }
    }
  }

  lemma HashRoute(arr: seq<Partition>, h: nat, id: nat)
    requires Increasing(arr)
    ensures PartitionIdOf(arr, h) == Some(id) <==> BelongsByHash(arr, h, id)
  {
    PartitionIdIsOwner(arr, h);
    if |arr| != 1 && PartitionIdOf(arr, h).None? {
      forall k: nat | k < |arr| ensures !Owns(arr, k, h) { assert arr[0].slot <= arr[k].slot; }
    }
  }

  /** On increasing slots a document is routed to exactly the partition it belongs to. */
  lemma RouteIsBelonging(space: Space, hash: string -> nat, doc: Doc, wanted: seq<nat>, id: nat)
    requires Increasing(space.partitions)
    ensures RouteOf(space, hash, doc, wanted) == To(id) <==> Belongs(space, hash, doc, wanted, id)
  {
    if space.rule.Some? {
      if doc.stamp.Some? { RangeRoute(space, space.rule.value, doc.stamp.value, hash(doc.key), id); }
    } else if wanted == [] {
      HashRoute(space.partitions, hash(doc.key), id);
    }
  }

  lemma {:induction false} IdsNamedAppend(arr: seq<Partition>, more: seq<Partition>, name: string)
    requires forall i :: 0 <= i < |more| ==> more[i].name != name
    ensures IdsNamed(arr + more, name) == IdsNamed(arr, name)
  {
    if arr != [] {
      assert (arr + more)[1..] == arr[1..] + more;
      IdsNamedAppend(arr[1..], more, name);
    } else if more != [] {
      assert arr + more == more && (arr + more)[1..] == [] + more[1..];
      IdsNamedAppend([], more[1..], name);
    }
  }

  /**
   * Adding ranges with partitions of their own moves no document but those whose timestamp a new
   * bound takes.
   */
  lemma UntakenDocsKeepTheirPartition(space: Space, added: seq<Range>, more: seq<Partition>, hash: string -> nat,
                                      doc: Doc, wanted: seq<nat>)
    requires space.rule.Some? && |space.partitions| > 1 && RangesOk(space.stamps, space.rule.value)
               && Parses(space.stamps, added)
    requires forall p, r :: p in more && r in space.rule.value ==> p.name != r.name
    requires doc.stamp.Some? ==> !SomeTakes(space.stamps, space.rule.value, added, doc.stamp.value)
    ensures InsertedAll(space.stamps, space.rule.value, added).Some?
    ensures var after := space.(partitions := space.partitions + more,
                                rule := InsertedAll(space.stamps, space.rule.value, added));
            RouteOf(after, hash, doc, wanted) == RouteOf(space, hash, doc, wanted)
  {
    AddRangesOrders(space.stamps, space.rule.value, added);
    if doc.stamp.Some? {
      var t := doc.stamp.value;
      TimestampsKeepTheirRange(space.stamps, space.rule.value, added, t);
      var k := FirstAbove(space.stamps, space.rule.value, t);
      if k < |space.rule.value| {
        assert space.rule.value[k] in space.rule.value;
        IdsNamedAppend(space.partitions, more, space.rule.value[k].name);
      }
    }
  }

  // Splitting a batch.

  type SendMap = map<nat, seq<Doc>>

  /** The documents routed to a partition, in batch order. */
  function Picked(docs: seq<Doc>, routes: seq<Route>, id: nat): seq<Doc>
    requires |docs| == |routes|
  {
    if docs == [] then []
    else
      var rest := Picked(docs[..|docs| - 1], routes[..|docs| - 1], id);
      if routes[|docs| - 1] == To(id) then rest + [docs[|docs| - 1]] else rest
  }

  /** Each partition is sent exactly the documents routed to it, and no partition an empty batch. */
  ghost predicate Splits(docs: seq<Doc>, routes: seq<Route>, m: SendMap)
    requires |docs| == |routes|
  {
    && (forall id: nat :: id in m <==> To(id) in routes)
    && (forall id :: id in m ==> m[id] == Picked(docs, routes, id))
  }

  function Appended(m: SendMap, id: nat, doc: Doc): SendMap {
    if id in m then m[id := m[id] + [doc]] else m[id := [doc]]
  }

  lemma {:induction false} PickedNone(docs: seq<Doc>, routes: seq<Route>, id: nat)
    requires |docs| == |routes| && To(id) !in routes
    ensures Picked(docs, routes, id) == []
    decreases |docs|
  {
    if docs != [] { PickedNone(docs[..|docs| - 1], routes[..|docs| - 1], id); }
  }

  lemma SplitsAppended(docs: seq<Doc>, routes: seq<Route>, m: SendMap, doc: Doc, id: nat)
    requires |docs| == |routes| && Splits(docs, routes, m)
    ensures Splits(docs + [doc], routes + [To(id)], Appended(m, id, doc))
  {
    var ds, rs := docs + [doc], routes + [To(id)];
    assert ds[..|ds| - 1] == docs && rs[..|ds| - 1] == routes;
    if id !in m { PickedNone(docs, routes, id); }
    forall j ensures j in Appended(m, id, doc) <==> To(j) in rs {
      assert To(j) in rs <==> To(j) in routes || j == id;
    }
  }

  datatype Outcome = Sent(m: SendMap) | Failed | Crashed

  ghost predicate AllRouted(routes: seq<Route>) {
    forall i :: 0 <= i < |routes| ==> routes[i].To?
  }

  function RoutesOf(space: Space, hash: string -> nat, docs: seq<Doc>, wanted: seq<nat>): (r: seq<Route>)
    ensures |r| == |docs| && forall i :: 0 <= i < |docs| ==> r[i] == RouteOf(space, hash, docs[i], wanted)
  {
    if docs == [] then []
    else RoutesOf(space, hash, docs[..|docs| - 1], wanted) + [RouteOf(space, hash, docs[|docs| - 1], wanted)]
  }

  /** The first k documents are split. */
  ghost predicate Done(space: Space, hash: string -> nat, docs: seq<Doc>, wanted: seq<nat>, k: nat, m: SendMap) {
    && k <= |docs| && AllRouted(RoutesOf(space, hash, docs[..k], wanted))
    && Splits(docs[..k], RoutesOf(space, hash, docs[..k], wanted), m)
  }

  lemma DoneStart(space: Space, hash: string -> nat, docs: seq<Doc>, wanted: seq<nat>)
    ensures Done(space, hash, docs, wanted, 0, map[])
  {
    assert docs[..0] == [];
  }

  lemma RoutesSnoc(space: Space, hash: string -> nat, docs: seq<Doc>, wanted: seq<nat>, k: nat)
    requires k < |docs|
    ensures RoutesOf(space, hash, docs[..k + 1], wanted)
              == RoutesOf(space, hash, docs[..k], wanted) + [RouteOf(space, hash, docs[k], wanted)]
  {
    assert docs[..k + 1][..k] == docs[..k];
  }

  lemma RoutedSnoc(docs: seq<Doc>, routes: seq<Route>, m: SendMap, doc: Doc, route: Route, longer: seq<Doc>,
                   all: seq<Route>)
    requires |docs| == |routes| && AllRouted(routes) && Splits(docs, routes, m) && route.To?
    requires longer == docs + [doc] && all == routes + [route]
    ensures AllRouted(all) && Splits(longer, all, Appended(m, route.id, doc))
  {
    SplitsAppended(docs, routes, m, doc, route.id);
  }

  lemma DoneStep(space: Space, hash: string -> nat, docs: seq<Doc>, wanted: seq<nat>, k: nat, m: SendMap, id: nat)
    requires k < |docs| && Done(space, hash, docs, wanted, k, m) && RouteOf(space, hash, docs[k], wanted) == To(id)
    ensures Done(space, hash, docs, wanted, k + 1, Appended(m, id, docs[k]))
  {
    RoutesSnoc(space, hash, docs, wanted, k);
    RoutedSnoc(docs[..k], RoutesOf(space, hash, docs[..k], wanted), m, docs[k], To(id), docs[..k + 1],
               RoutesOf(space, hash, docs[..k + 1], wanted));
  }

  lemma DoneEnd(space: Space, hash: string -> nat, docs: seq<Doc>, wanted: seq<nat>, m: SendMap)
    requires Done(space, hash, docs, wanted, |docs|, m)
    ensures AllRouted(RoutesOf(space, hash, docs, wanted)) && Splits(docs, RoutesOf(space, hash, docs, wanted), m)
  {
    assert docs[..|docs|] == docs;
  }

  lemma NotRouted(space: Space, hash: string -> nat, docs: seq<Doc>, wanted: seq<nat>, k: nat)
    requires k < |docs| && !RouteOf(space, hash, docs[k], wanted).To?
    ensures !AllRouted(RoutesOf(space, hash, docs, wanted))
  {
    assert RoutesOf(space, hash, docs, wanted)[k] == RouteOf(space, hash, docs[k], wanted);
  }

  predicate Reaches(m: SendMap, id: nat, doc: Doc) {
    id in m && doc in m[id]
  }

  lemma {:induction false} PickedOnly(docs: seq<Doc>, routes: seq<Route>, id: nat, doc: Doc)
    requires |docs| == |routes| && doc in Picked(docs, routes, id)
    ensures exists i :: 0 <= i < |docs| && docs[i] == doc && routes[i] == To(id)
    decreases |docs|
  {
    var n := |docs| - 1;
    if doc in Picked(docs[..n], routes[..n], id) {
      PickedOnly(docs[..n], routes[..n], id, doc);
      var i :| 0 <= i < n && docs[..n][i] == doc && routes[..n][i] == To(id);
      assert docs[i] == doc && routes[i] == To(id);
    } else {
      assert docs[n] == doc && routes[n] == To(id);
    }
  }

  /** The positions of a partition's documents in the batch. */
  function Positions(routes: seq<Route>, id: nat): seq<nat> {
    if routes == [] then []
    else Positions(routes[..|routes| - 1], id) + if routes[|routes| - 1] == To(id) then [|routes| - 1] else []
  }

  lemma {:induction false} PositionsRise(routes: seq<Route>, id: nat)
    ensures forall i: nat :: i in Positions(routes, id) <==> i < |routes| && routes[i] == To(id)
    ensures forall k, l :: 0 <= k < l < |Positions(routes, id)| ==> Positions(routes, id)[k] < Positions(routes, id)[l]
  {
    if routes != [] {
      var n := |routes| - 1;
      PositionsRise(routes[..n], id);
      var init := Positions(routes[..n], id);
      forall k | 0 <= k < |init| ensures init[k] < n { assert init[k] in init; }
    }
  }

  lemma {:induction false} PickedAt(docs: seq<Doc>, routes: seq<Route>, id: nat, k: nat)
    requires |docs| == |routes| && (k < |Picked(docs, routes, id)| || k < |Positions(routes, id)|)
    ensures |Picked(docs, routes, id)| == |Positions(routes, id)|
    ensures Positions(routes, id)[k] < |docs| && Picked(docs, routes, id)[k] == docs[Positions(routes, id)[k]]
    decreases |docs|
  {
    var n := |docs| - 1;
    SameLength(docs[..n], routes[..n], id);
    if k < |Positions(routes[..n], id)| { PickedAt(docs[..n], routes[..n], id, k); }
  }

  lemma {:induction false} SameLength(docs: seq<Doc>, routes: seq<Route>, id: nat)
    requires |docs| == |routes|
    ensures |Picked(docs, routes, id)| == |Positions(routes, id)|
    decreases |docs|
  {
    if docs != [] { SameLength(docs[..|docs| - 1], routes[..|docs| - 1], id); }
  }

  /** Each partition is sent its documents in the order of the batch, each position once. */
  lemma SentInBatchOrder(docs: seq<Doc>, routes: seq<Route>, m: SendMap, id: nat)
    requires |docs| == |routes| && Splits(docs, routes, m) && id in m
    ensures var at := Positions(routes, id);
            && |m[id]| == |at| && (forall k :: 0 <= k < |at| ==> at[k] < |docs| && m[id][k] == docs[at[k]])
            && (forall k, l :: 0 <= k < l < |at| ==> at[k] < at[l])
            && (forall i: nat :: i in at <==> i < |docs| && routes[i] == To(id))
  {
    PositionsRise(routes, id);
    SameLength(docs, routes, id);
    forall k | 0 <= k < |Positions(routes, id)|
      ensures Positions(routes, id)[k] < |docs| && m[id][k] == docs[Positions(routes, id)[k]]
    {
      PickedAt(docs, routes, id, k);
    }
  }

  /** A document of the batch reaches exactly the partition it belongs to. */
  lemma SplitIsBelonging(space: Space, hash: string -> nat, docs: seq<Doc>, wanted: seq<nat>, m: SendMap, i: nat,
                         id: nat)
    requires Increasing(space.partitions) && i < |docs| && Splits(docs, RoutesOf(space, hash, docs, wanted), m)
    ensures Reaches(m, id, docs[i]) <==> Belongs(space, hash, docs[i], wanted, id)
  {
    var routes := RoutesOf(space, hash, docs, wanted);
    RouteIsBelonging(space, hash, docs[i], wanted, id);
    if Reaches(m, id, docs[i]) { PickedOnly(docs, routes, id, docs[i]); }
    if routes[i] == To(id) { PickedHas(docs, routes, i); }
  }

  /** Every document of the batch reaches the partition it belongs to and no other. */
  ghost predicate Delivers(space: Space, hash: string -> nat, docs: seq<Doc>, wanted: seq<nat>, m: SendMap) {
    forall i, id: nat :: 0 <= i < |docs| ==>
      (Reaches(m, id, docs[i]) <==> Belongs(space, hash, docs[i], wanted, id))
  }

  lemma SplitDelivers(space: Space, hash: string -> nat, docs: seq<Doc>, wanted: seq<nat>, m: SendMap)
    requires Increasing(space.partitions) && Splits(docs, RoutesOf(space, hash, docs, wanted), m)
    ensures Delivers(space, hash, docs, wanted, m)
  {
    forall i, id: nat | 0 <= i < |docs|
      ensures Reaches(m, id, docs[i]) <==> Belongs(space, hash, docs[i], wanted, id)
    {
      SplitIsBelonging(space, hash, docs, wanted, m, i, id);
    }
  }

  /**
   * The batch is sent exactly when every document has a partition, and then each reaches the one it
   * belongs to; otherwise nothing is sent, and the first document without one, at position at, says
   * whether the call fails or panics.
   */
  method UpsertByPartitions(space: Space, hash: string -> nat, docs: seq<Doc>, wanted: seq<nat>)
    returns (out: Outcome, at: nat)
    ensures out.Sent? <==> AllRouted(RoutesOf(space, hash, docs, wanted))
    ensures out.Sent? ==> Splits(docs, RoutesOf(space, hash, docs, wanted), out.m)
    ensures out.Sent? && Increasing(space.partitions) ==> Delivers(space, hash, docs, wanted, out.m)
    ensures !out.Sent? ==> at < |docs| && AllRouted(RoutesOf(space, hash, docs[..at], wanted))
                           && RouteOf(space, hash, docs[at], wanted) == if out.Failed? then Refused else Panics
  {
    var m: SendMap := map[];
    at := 0;
    DoneStart(space, hash, docs, wanted);
    while at < |docs|
      invariant Done(space, hash, docs, wanted, at, m)
    {
      var route := RouteDoc(space, hash, docs[at], wanted);
      if route.Refused? || route.Panics? {
        NotRouted(space, hash, docs, wanted, at);
        return if route.Refused? then Failed else Crashed, at;
      }
      DoneStep(space, hash, docs, wanted, at, m, route.id);
      m := Appended(m, route.id, docs[at]);
      at := at + 1;
    }
    DoneEnd(space, hash, docs, wanted, m);
    if Increasing(space.partitions) { SplitDelivers(space, hash, docs, wanted, m); }
    return Sent(m), at;
  }

  /** PartitionDocs routes every document by its hash, whatever the rule. */
  method PartitionDocs(space: Space, hash: string -> nat, docs: seq<Doc>) returns (out: Outcome)
    ensures out.Sent? <==> AllRouted(RoutesOf(space.(rule := None), hash, docs, []))
    ensures out.Sent? ==> Splits(docs, RoutesOf(space.(rule := None), hash, docs, []), out.m)
    ensures out.Sent? && Increasing(space.partitions) ==> Delivers(space.(rule := None), hash, docs, [], out.m)
    ensures !out.Failed?
  {
    ghost var plain := space.(rule := None);
    var m: SendMap := map[];
    DoneStart(plain, hash, docs, []);
    for k := 0 to |docs|
      invariant Done(plain, hash, docs, [], k, m)
    {
      var id := PartitionId(space.partitions, hash(docs[k].key));
      if id.None? {
        NotRouted(plain, hash, docs, [], k);
        return Crashed;
      }
      DoneStep(plain, hash, docs, [], k, m, id.value);
      m := Appended(m, id.value, docs[k]);
    }
    DoneEnd(plain, hash, docs, [], m);
    if Increasing(space.partitions) { SplitDelivers(plain, hash, docs, [], m); }
    return Sent(m);
  }

  /** All that is sent to the listed partitions. */
  function SentTo(docs: seq<Doc>, routes: seq<Route>, ids: seq<nat>): multiset<Doc>
    requires |docs| == |routes|
  {
    if ids == [] then multiset{} else multiset(Picked(docs, routes, ids[0])) + SentTo(docs, routes, ids[1..])
  }

  predicate NoRepeat(ids: seq<nat>) {
    forall i, j :: 0 <= i < j < |ids| ==> ids[i] != ids[j]
  }

  function Extra(doc: Doc, here: bool): multiset<Doc> {
    if here then multiset{doc} else multiset{}
  }

  lemma PickedSnoc(docs: seq<Doc>, routes: seq<Route>, id: nat)
    requires |docs| == |routes| && docs != []
    ensures var n := |docs| - 1;
            multiset(Picked(docs, routes, id))
                == multiset(Picked(docs[..n], routes[..n], id)) + Extra(docs[n], routes[n] == To(id))
  {
  }

  lemma OnePlace(route: Route, ids: seq<nat>)
    requires ids != [] && NoRepeat(ids)
    ensures route.To? && route.id in ids <==> route == To(ids[0]) || (route.To? && route.id in ids[1..])
    ensures !(route == To(ids[0]) && route.id in ids[1..])
  {
    assert ids == [ids[0]] + ids[1..];
  }

  lemma Regroup(a: multiset<Doc>, b: multiset<Doc>, c: multiset<Doc>, d: multiset<Doc>)
    ensures (a + b) + (c + d) == (a + c) + (b + d)
  {
  }

  lemma {:induction false} SentToSnoc(docs: seq<Doc>, routes: seq<Route>, ids: seq<nat>)
    requires |docs| == |routes| && docs != [] && NoRepeat(ids)
    ensures var n := |docs| - 1;
            SentTo(docs, routes, ids) == SentTo(docs[..n], routes[..n], ids)
              + Extra(docs[n], routes[n].To? && routes[n].id in ids)
    decreases ids
  {
    if ids != [] {
      var n := |docs| - 1;
      var first, rest := routes[n] == To(ids[0]), routes[n].To? && routes[n].id in ids[1..];
      PickedSnoc(docs, routes, ids[0]);
      SentToSnoc(docs, routes, ids[1..]);
      OnePlace(routes[n], ids);
      Regroup(multiset(Picked(docs[..n], routes[..n], ids[0])), Extra(docs[n], first),
          SentTo(docs[..n], routes[..n], ids[1..]), Extra(docs[n], rest));
    }
  }

  /** Every route leads to one of these partitions. */
  predicate AllAmong(routes: seq<Route>, ids: seq<nat>) {
    forall i :: 0 <= i < |routes| ==> routes[i].To? && routes[i].id in ids
  }

  lemma BagSnoc(docs: seq<Doc>)
    requires docs != []
    ensures multiset(docs) == multiset(docs[..|docs| - 1]) + Extra(docs[|docs| - 1], true)
  {
    assert docs == docs[..|docs| - 1] + [docs[|docs| - 1]];
  }

  /** Upsert conserves documents: together the partitions are sent the batch, each document once. */
  lemma {:induction false} BatchIsConserved(docs: seq<Doc>, routes: seq<Route>, ids: seq<nat>)
    requires |docs| == |routes| && NoRepeat(ids) && AllAmong(routes, ids)
    ensures SentTo(docs, routes, ids) == multiset(docs)
    decreases |docs|
  {
    if docs == [] {
      EmptySent(routes, ids);
    } else {
      var n := |docs| - 1;
      BatchIsConserved(docs[..n], routes[..n], ids);
      SentToSnoc(docs, routes, ids);
      BagSnoc(docs);
    }
  }

  lemma {:induction false} EmptySent(routes: seq<Route>, ids: seq<nat>)
    requires routes == []
    ensures SentTo([], routes, ids) == multiset{}
    decreases ids
  {
    if ids != [] { EmptySent(routes, ids[1..]); }
  }

  // Putting the replies back together.

  datatype Item = Item(key: string, err: Option<string>)

  /** A partition's reply, or its own request with the error set. Items may be nil. */
  datatype Reply = Reply(items: seq<Option<Item>>, err: Option<string>)

  /** setPartitionErr, then the items that are not nil. */
  function Marked(reply: Reply): seq<Item> {
    MarkedFrom(reply.items, reply.err)
  }

  function MarkedFrom(items: seq<Option<Item>>, err: Option<string>): seq<Item> {
    if items == [] then []
    else
      var rest := MarkedFrom(items[..|items| - 1], err);
      match items[|items| - 1]
      case None => rest
      case Some(item) => rest + [if err.Some? then item.(err := err) else item]
  }

  function Arrived(replies: seq<Reply>): seq<Item> {
    if replies == [] then [] else Arrived(replies[..|replies| - 1]) + Marked(replies[|replies| - 1])
  }

  /** The last item that came for a key. */
  function LastFor(items: seq<Item>, key: string): Option<Item> {
    if items == [] then None
    else if items[|items| - 1].key == key then Some(items[|items| - 1])
    else LastFor(items[..|items| - 1], key)
  }

  /** docIndexMap: the positions of each key among the first k documents. */
  function Lookup(m: map<string, seq<nat>>, key: string): seq<nat> {
    if key in m then m[key] else []
  }

  ghost predicate Indexes(docs: seq<Doc>, k: nat, m: map<string, seq<nat>>)
    requires k <= |docs|
  {
    forall key: string, i: nat {:trigger i in Lookup(m, key)} :: i in Lookup(m, key) <==> i < k && docs[i].key == key
  }

  method IndexDocs(docs: seq<Doc>) returns (m: map<string, seq<nat>>)
    ensures Indexes(docs, |docs|, m)
  {
    m := map[];
    for k := 0 to |docs|
      invariant Indexes(docs, k, m)
    {
      var key := docs[k].key;
      ghost var was := m;
      m := m[key := Lookup(m, key) + [k]];
      assert forall other :: Lookup(m, other) == if other == key then Lookup(was, key) + [k] else Lookup(was, other);
    }
  }

  /** Every output slot holds the last item that has come for its document's key. */
  ghost predicate Placed(docs: seq<Doc>, out: seq<Option<Item>>, arrived: seq<Item>) {
    |out| == |docs| && forall i :: 0 <= i < |docs| ==> out[i] == LastFor(arrived, docs[i].key)
  }

  method Place(docs: seq<Doc>, m: map<string, seq<nat>>, out: array<Option<Item>>, item: Item, ghost arrived: seq<Item>)
    requires Indexes(docs, |docs|, m) && Placed(docs, out[..], arrived)
    modifies out
    ensures Placed(docs, out[..], arrived + [item])
  {
    var at := Lookup(m, item.key);
    assert forall x :: x in at ==> x < |docs|;
    for k := 0 to |at|
      invariant forall i :: 0 <= i < out.Length ==> out[i] == if i in at[..k] then Some(item) else old(out[i])
    {
      assert at[k] in at;
      out[at[k]] := Some(item);
      assert at[..k + 1] == at[..k] + [at[k]];
    }
    assert at[..|at|] == at;
    var now := arrived + [item];
    assert now[..|now| - 1] == arrived;
    forall i | 0 <= i < |docs| ensures out[i] == LastFor(now, docs[i].key) {
      assert old(out[..])[i] == LastFor(arrived, docs[i].key);
    }
  }

  method PlaceReply(docs: seq<Doc>, m: map<string, seq<nat>>, out: array<Option<Item>>, reply: Reply,
                    ghost arrived: seq<Item>)
    requires Indexes(docs, |docs|, m) && Placed(docs, out[..], arrived)
    modifies out
    ensures Placed(docs, out[..], arrived + Marked(reply))
  {
    assert arrived + MarkedFrom([], reply.err) == arrived;
    assert reply.items[..0] == [];
    for k := 0 to |reply.items|
      invariant Placed(docs, out[..], arrived + MarkedFrom(reply.items[..k], reply.err))
    {
      ghost var sofar := MarkedFrom(reply.items[..k], reply.err);
      assert reply.items[..k + 1][..k] == reply.items[..k];
      if reply.items[k].Some? {
        var item := reply.items[k].value;
        var marked := if reply.err.Some? then item.(err := reply.err) else item;
        Place(docs, m, out, marked, arrived + sofar);
        assert arrived + sofar + [marked] == arrived + (sofar + [marked]);
      }
    }
    assert reply.items[..|reply.items|] == reply.items;
  }

  /** The end of Execute, over the replies in their order of arrival. */
  method Reassemble(docs: seq<Doc>, replies: seq<Reply>) returns (out: array<Option<Item>>)
    ensures Placed(docs, out[..], Arrived(replies))
  {
    var m := IndexDocs(docs);
    out := new Option<Item>[|docs|](_ => None);
    assert replies[..0] == [];
    for k := 0 to |replies|
      invariant fresh(out) && Placed(docs, out[..], Arrived(replies[..k]))
    {
      assert replies[..k + 1][..k] == replies[..k];
      PlaceReply(docs, m, out, replies[k], Arrived(replies[..k]));
    }
    assert replies[..|replies|] == replies;
  }

  lemma {:induction false} LastForIsThere(items: seq<Item>, key: string)
    ensures LastFor(items, key).Some? <==> exists j :: 0 <= j < |items| && items[j].key == key
    ensures LastFor(items, key).Some? ==> LastFor(items, key).value.key == key && LastFor(items, key).value in items
  {
    if items != [] {
      LastForIsThere(items[..|items| - 1], key);
      if exists j :: 0 <= j < |items| && items[j].key == key {
        var j :| 0 <= j < |items| && items[j].key == key;
        assert j < |items| - 1 ==> items[..|items| - 1][j].key == key;
      }
    }
  }

  /** The reply has an item for the key. */
  predicate Answers(reply: Reply, key: string) {
    exists j :: 0 <= j < |reply.items| && reply.items[j].Some? && reply.items[j].value.key == key
  }

  lemma {:induction false} MarkedAnswers(items: seq<Option<Item>>, err: Option<string>, j: nat)
    requires j < |items| && items[j].Some?
    ensures exists i :: 0 <= i < |MarkedFrom(items, err)| && MarkedFrom(items, err)[i].key == items[j].value.key
  {
    var n := |items| - 1;
    if j < n {
      MarkedAnswers(items[..n], err, j);
      var rest := MarkedFrom(items[..n], err);
      var i :| 0 <= i < |rest| && rest[i].key == items[j].value.key;
      assert MarkedFrom(items, err)[i] == rest[i];
    } else {
      assert MarkedFrom(items, err)[|MarkedFrom(items, err)| - 1].key == items[j].value.key;
    }
  }

  lemma {:induction false} ArrivedAnswers(replies: seq<Reply>, r: nat, key: string)
    requires r < |replies| && Answers(replies[r], key)
    ensures exists i :: 0 <= i < |Arrived(replies)| && Arrived(replies)[i].key == key
  {
    var n := |replies| - 1;
    var before, last := Arrived(replies[..n]), Marked(replies[n]);
    if r < n {
      ArrivedAnswers(replies[..n], r, key);
      var i :| 0 <= i < |before| && before[i].key == key;
      assert Arrived(replies)[i] == before[i];
    } else {
      var j :| 0 <= j < |replies[r].items| && replies[r].items[j].Some? && replies[r].items[j].value.key == key;
      MarkedAnswers(replies[r].items, replies[r].err, j);
      var i :| 0 <= i < |last| && last[i].key == key;
      assert Arrived(replies)[|before| + i] == last[i];
    }
  }

  /**
   * If each partition answers for every document it was sent, or hands its request back with an
   * error, then in any order of arrival slot i holds an item with document i's key.
   */
  lemma {:induction false} EverySlotIsFilled(docs: seq<Doc>, routes: seq<Route>, m: SendMap, replies: seq<Reply>,
                                             from: map<nat, nat>, out: seq<Option<Item>>)
    requires |docs| == |routes| && AllRouted(routes) && Splits(docs, routes, m) && Placed(docs, out, Arrived(replies))
    requires forall id :: id in m ==> id in from && from[id] < |replies|
    requires forall id, d :: id in m && d in m[id] ==> Answers(replies[from[id]], d.key)
    ensures forall i :: 0 <= i < |docs| ==> out[i].Some? && out[i].value.key == docs[i].key
  {
    forall i | 0 <= i < |docs| ensures out[i].Some? && out[i].value.key == docs[i].key {
      var id := routes[i].id;
      assert To(id) in routes;
      PickedHas(docs, routes, i);
      assert docs[i] in m[id];
      ArrivedAnswers(replies, from[id], docs[i].key);
      LastForIsThere(Arrived(replies), docs[i].key);
    }
  }

  lemma {:induction false} PickedHas(docs: seq<Doc>, routes: seq<Route>, i: nat)
    requires |docs| == |routes| && i < |docs| && routes[i].To?
    ensures docs[i] in Picked(docs, routes, routes[i].id)
    decreases |docs|
  {
    var n := |docs| - 1;
    if i < n { PickedHas(docs[..n], routes[..n], i); }
  }

  // What a slot shows.

  /** The reply's j-th item as the caller sees it: with the reply's error if it has one. */
  predicate Shows(reply: Reply, j: nat, item: Item) {
    && j < |reply.items| && reply.items[j].Some? && item.key == reply.items[j].value.key
    && item.err == if reply.err.Some? then reply.err else reply.items[j].value.err
  }

  /** Item j of reply r is the last that came for the key. */
  ghost predicate LastAnswer(replies: seq<Reply>, key: string, r: nat, j: nat) {
    && r < |replies| && j < |replies[r].items| && replies[r].items[j].Some? && replies[r].items[j].value.key == key
    && (forall i :: j < i < |replies[r].items| && replies[r].items[i].Some? ==> replies[r].items[i].value.key != key)
    && (forall q :: r < q < |replies| ==> !Answers(replies[q], key))
  }

  lemma {:induction false} LastForConcat(a: seq<Item>, b: seq<Item>, key: string)
    ensures LastFor(a + b, key) == if LastFor(b, key).Some? then LastFor(b, key) else LastFor(a, key)
  {
    if b == [] {
      assert a + b == a;
    } else {
      assert (a + b)[..|a + b| - 1] == a + b[..|b| - 1];
      LastForConcat(a, b[..|b| - 1], key);
    }
  }

  /** No item from position j on is for the key. */
  predicate NoneFrom(items: seq<Option<Item>>, key: string, j: nat) {
    forall i :: j <= i < |items| && items[i].Some? ==> items[i].value.key != key
  }

  lemma MarkedSnoc(items: seq<Option<Item>>, err: Option<string>, key: string)
    requires items != []
    ensures var n := |items| - 1;
            var rest := LastFor(MarkedFrom(items[..n], err), key);
            LastFor(MarkedFrom(items, err), key) ==
            if items[n].Some? && items[n].value.key == key
            then Some(if err.Some? then items[n].value.(err := err) else items[n].value) else rest
  {
    var n := |items| - 1;
    var rest := MarkedFrom(items[..n], err);
    if items[n].Some? {
      var item := if err.Some? then items[n].value.(err := err) else items[n].value;
      assert (rest + [item])[..|rest|] == rest;
    }
  }

  lemma {:induction false} LastMarked(items: seq<Option<Item>>, err: Option<string>, key: string) returns (j: nat)
    ensures var last := LastFor(MarkedFrom(items, err), key);
            if last.None? then NoneFrom(items, key, 0)
            else j < |items| && Shows(Reply(items, err), j, last.value) && items[j].value.key == key
                 && NoneFrom(items, key, j + 1)
  {
    j := 0;
    if items != [] {
      var n := |items| - 1;
      MarkedSnoc(items, err, key);
      if items[n].Some? && items[n].value.key == key {
        j := n;
      } else {
        j := LastMarked(items[..n], err, key);
        forall i | 0 <= i < n ensures items[i] == items[..n][i] {}
      }
    }
  }

  lemma {:induction false} LastArrived(replies: seq<Reply>, key: string) returns (r: nat, j: nat)
    ensures LastFor(Arrived(replies), key).None? ==> forall q :: 0 <= q < |replies| ==> !Answers(replies[q], key)
    ensures LastFor(Arrived(replies), key).Some? ==>
              LastAnswer(replies, key, r, j) && Shows(replies[r], j, LastFor(Arrived(replies), key).value)
  {
    r, j := 0, 0;
    if replies != [] {
      var n := |replies| - 1;
      LastForConcat(Arrived(replies[..n]), Marked(replies[n]), key);
      var last := LastMarked(replies[n].items, replies[n].err, key);
      var before, at := LastArrived(replies[..n], key);
      if LastFor(Marked(replies[n]), key).Some? {
        r, j := n, last;
      } else {
        r, j := before, at;
        forall q | 0 <= q < n ensures replies[q] == replies[..n][q] {}
      }
    }
  }

  /**
   * In any order of arrival: a slot is empty exactly when no reply has an item for its document's key,
   * and otherwise shows the last such item, with its reply's error if there is one.
   */
  lemma {:induction false} SlotShowsLastAnswer(docs: seq<Doc>, out: seq<Option<Item>>, replies: seq<Reply>, i: nat)
    requires Placed(docs, out, Arrived(replies)) && i < |docs|
    ensures out[i].None? <==> forall r :: 0 <= r < |replies| ==> !Answers(replies[r], docs[i].key)
    ensures out[i].Some? ==>
              exists r: nat, j: nat :: LastAnswer(replies, docs[i].key, r, j) && Shows(replies[r], j, out[i].value)
  {
    var r, j := LastArrived(replies, docs[i].key);
    if out[i].Some? { assert Answers(replies[r], docs[i].key); }
  }
}
