/**
 * StorageManager::MultiGetByKeys: many keys are sorted, looked up in one ordered pass and the
 * answers put back in the order of the request.
 */
module MultiGet {
  import opened Bytes

  datatype Status = Ok | NotFound | IOError

  /** The column family; a key in broken cannot be read. */
  datatype Store = Store(data: map<ByteString, ByteString>, broken: set<ByteString>)

  function StatusOf(store: Store, key: ByteString): Status {
    if key in store.broken then IOError else if key in store.data then Ok else NotFound
  }

  /** A single Get: the value stays empty unless the status is Ok. */
  function ValueOf(store: Store, key: ByteString): ByteString {
    if StatusOf(store, key).Ok? then store.data[key] else []
  }

  predicate InOrder(keys: seq<ByteString>, order: seq<nat>) {
    && (forall i :: 0 <= i < |order| ==> order[i] < |keys|)
    && forall i, j :: 0 <= i < j < |order| ==> AtMost(keys[order[i]], keys[order[j]])
  }

  /** order lists exactly the first n positions. */
  predicate Lists(order: seq<nat>, n: nat) {
    |order| == n && (forall i: nat :: i < n ==> i in order) && forall i :: 0 <= i < |order| ==> order[i] < n
  }

  function InsertAt(order: seq<nat>, p: nat, x: nat): (r: seq<nat>)
    requires p <= |order|
    ensures |r| == |order| + 1 && r[p] == x
    ensures forall i :: 0 <= i < |order| ==> r[if i < p then i else i + 1] == order[i]
  {
    order[..p] + [x] + order[p..]
  }

  /** x belongs at p: the keys before are not greater, those after not smaller. */
  predicate Fits(keys: seq<ByteString>, order: seq<nat>, x: nat, p: nat)
    requires InOrder(keys, order) && x < |keys| && p <= |order|
  {
    && (forall i :: 0 <= i < p ==> AtMost(keys[order[i]], keys[x]))
    && (forall i :: p <= i < |order| ==> AtMost(keys[x], keys[order[i]]))
  }

  lemma InsertedInOrder(keys: seq<ByteString>, order: seq<nat>, x: nat, p: nat)
    requires InOrder(keys, order) && x < |keys| && p <= |order| && Fits(keys, order, x, p)
    ensures InOrder(keys, InsertAt(order, p, x))
  {
    var r := InsertAt(order, p, x);
    forall i | 0 <= i < |r| ensures r[i] < |keys| { InsertedElement(order, p, x, i); }
    forall i, j | 0 <= i < j < |r| ensures AtMost(keys[r[i]], keys[r[j]]) {
      InsertedElement(order, p, x, i);
      InsertedElement(order, p, x, j);
    }
  }

  lemma InsertedElement(order: seq<nat>, p: nat, x: nat, i: nat)
    requires p <= |order| && i <= |order|
    ensures InsertAt(order, p, x)[i] == if i < p then order[i] else if i == p then x else order[i - 1]
  {
  }

  lemma InsertedLists(order: seq<nat>, x: nat, p: nat)
    requires Lists(order, x) && p <= |order|
    ensures Lists(InsertAt(order, p, x), x + 1)
  {
    var r := InsertAt(order, p, x);
    assert forall i :: 0 <= i < |r| ==> r[i] == if i < p then order[i] else if i == p then x else order[i - 1];
    forall i: nat | i < x + 1 ensures i in r {
      if i < x { assert i in order; }
    }
  }

  lemma Below(keys: seq<ByteString>, order: seq<nat>, x: nat, p: nat)
    requires InOrder(keys, order) && x < |keys| && p <= |order| && (p > 0 ==> !Less(keys[x], keys[order[p - 1]]))
    ensures forall i :: 0 <= i < p ==> AtMost(keys[order[i]], keys[x])
  {
    forall i | 0 <= i < p ensures AtMost(keys[order[i]], keys[x]) {
      if i < p - 1 { AtMostTransitive(keys[order[i]], keys[order[p - 1]], keys[x]); }
    }
  }

  /** One position goes in before the first greater key. */
  method Insert(keys: seq<ByteString>, order: seq<nat>, x: nat) returns (r: seq<nat>)
    requires InOrder(keys, order) && Lists(order, x) && x < |keys|
    ensures InOrder(keys, r) && Lists(r, x + 1)
  {
    var p := |order|;
    while p > 0 && Less(keys[x], keys[order[p - 1]])
      invariant 0 <= p <= |order| && forall i :: p <= i < |order| ==> AtMost(keys[x], keys[order[i]])
    {
      LessAsymmetric(keys[x], keys[order[p - 1]]);
      p := p - 1;
    }
    Below(keys, order, x, p);
    InsertedInOrder(keys, order, x, p);
    InsertedLists(order, x, p);
    r := InsertAt(order, p, x);
  }

  method SortedOrder(keys: seq<ByteString>) returns (order: seq<nat>)
    ensures InOrder(keys, order) && Lists(order, |keys|)
  {
    order := [];
    for i := 0 to |keys|
      invariant InOrder(keys, order) && Lists(order, i)
    {
      order := Insert(keys, order, i);
    }
  }

  /** db_->MultiGet with sorted_input: it may rely on the order of its keys. */
  method LookupSorted(store: Store, keys: seq<ByteString>) returns (values: seq<ByteString>, statuses: seq<Status>)
    requires forall i, j :: 0 <= i < j < |keys| ==> AtMost(keys[i], keys[j])
    ensures |values| == |statuses| == |keys|
    ensures forall i :: 0 <= i < |keys| ==>
              values[i] == ValueOf(store, keys[i]) && statuses[i] == StatusOf(store, keys[i])
  {
    values, statuses := [], [];
    for i := 0 to |keys|
      invariant |values| == |statuses| == i
      invariant forall k :: 0 <= k < i ==>
                  values[k] == ValueOf(store, keys[k]) && statuses[k] == StatusOf(store, keys[k])
    {
      values, statuses := values + [ValueOf(store, keys[i])], statuses + [StatusOf(store, keys[i])];
    }
  }

  /** Each position gets what a single Get of its key would return, repeated and unsorted keys included. */
  method MultiGetByKeys(store: Store, keys: seq<ByteString>) returns (values: seq<ByteString>, statuses: seq<Status>)
    ensures |values| == |statuses| == |keys|
    ensures forall i :: 0 <= i < |keys| ==>
              values[i] == ValueOf(store, keys[i]) && statuses[i] == StatusOf(store, keys[i])
  {
    var k := |keys|;
    var order := SortedOrder(keys);
    var sortedKeys := seq(k, i requires 0 <= i < k => keys[order[i]]);
    var sortedValues, sortedStatuses := LookupSorted(store, sortedKeys);
    values, statuses := seq(k, _ => []), seq(k, _ => NotFound);
    for i := 0 to k
      invariant |values| == |statuses| == k
      invariant forall p :: 0 <= p < k && p in order[..i] ==>
                  values[p] == ValueOf(store, keys[p]) && statuses[p] == StatusOf(store, keys[p])
      invariant forall p :: 0 <= p < k && p !in order[..i] ==> values[p] == []
    {
      var orig := order[i];
      assert order[..i + 1] == order[..i] + [orig];
      if sortedStatuses[i].Ok? {
        values := values[orig := sortedValues[i]];
      }
      statuses := statuses[orig := sortedStatuses[i]];
    }
    assert order[..k] == order;
  }
}
