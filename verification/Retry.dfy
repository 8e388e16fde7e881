/**
 * Which replica a search is sent to and the retry loop of searchFromPartition: RoundRobin,
 * GetNodeIdsByClientType, and the loop that marks a node faulty when its connection is refused
 * and picks again.
 */
module Retry {

  /** Node id 0 stands for no node. */
  type NodeId = nat

  /** Random stands for any other name as well. */
  datatype ClientType = Leader | NotLeader | Random | LeastConnection | NearestConnection

  /** Requests under way on a connection. */
  type Load = n: nat | n < 0xFFFF_FFFF

  /** inStep are the replicas whose raft state is ReplicasOK. */
  datatype Partition = Partition(id: nat, leader: NodeId, replicas: seq<NodeId>, inStep: set<NodeId>)

  class RoundRobin {
    var counters: map<nat, nat>

    constructor ()
      ensures counters == map[]
    {
      counters := map[];
    }

    /** A key's n-th call, counted from 0, takes position n modulo the length. An empty list uses no turn. */
    method Next(key: nat, v: seq<NodeId>) returns (r: NodeId)
      modifies this
      ensures v == [] ==> r == 0 && counters == old(counters)
      ensures v != [] ==>
                r == v[Turn(old(counters), key) % |v|] && counters == old(counters)[key := Turn(old(counters), key) + 1]
    {
      if |v| == 0 {
        return 0;
      }
      var ix := 0;
      if key in counters {
        counters := counters[key := counters[key] + 1];
        ix := (counters[key] - 1) % |v|;
      } else {
        counters := counters[key := 1];
      }
      return v[ix];
    }
  }

  function Turn(counters: map<nat, nat>, key: nat): nat {
    if key in counters then counters[key] else 0
  }

  /** A replica the client type may be sent to: a known server, not faulty, in step if that is asked for. */
  predicate Eligible(kind: ClientType, p: Partition, known: set<NodeId>, strict: bool, faulty: set<NodeId>, n: NodeId) {
    n in p.replicas && n in known && n !in faulty && (strict ==> n in p.inStep) && (kind.NotLeader? ==> n != p.leader)
  }

  function EligibleSet(kind: ClientType, p: Partition, known: set<NodeId>, strict: bool,
                       faulty: set<NodeId>): set<NodeId> {
    set n | n in p.replicas && Eligible(kind, p, known, strict, faulty, n)
  }

  /** The nodes of a list that are in a set, in the list's order. */
  function Filter(s: seq<NodeId>, keep: set<NodeId>): seq<NodeId> {
    if s == [] then []
    else Filter(s[..|s| - 1], keep) + if s[|s| - 1] in keep then [s[|s| - 1]] else []
  }

  lemma {:induction false} FilterHas(s: seq<NodeId>, keep: set<NodeId>)
    ensures forall x :: x in Filter(s, keep) <==> x in s && x in keep
  {
    if s != [] {
      FilterHas(s[..|s| - 1], keep);
      assert s == s[..|s| - 1] + [s[|s| - 1]];
    }
  }

  /** The replicas that take turns: the eligible ones, or those of them in the zone if that is asked for. */
  function Pool(kind: ClientType, p: Partition, known: set<NodeId>, strict: bool, faulty: set<NodeId>,
                near: set<NodeId>): seq<NodeId> {
    var all := Filter(p.replicas, EligibleSet(kind, p, known, strict, faulty));
    if kind.NearestConnection? && Filter(all, near) != [] then Filter(all, near) else all
  }

  /** The loop over the replicas, the same in each branch. */
  method EligibleIds(kind: ClientType, p: Partition, known: set<NodeId>, strict: bool, faulty: set<NodeId>)
    returns (ids: seq<NodeId>)
    ensures ids == Filter(p.replicas, EligibleSet(kind, p, known, strict, faulty))
  {
    ids := [];
    for i := 0 to |p.replicas|
      invariant ids == Filter(p.replicas[..i], EligibleSet(kind, p, known, strict, faulty))
    {
      assert p.replicas[..i + 1][..i] == p.replicas[..i];
      var r := p.replicas[i];
      if r in known && r !in faulty && (!strict || r in p.inStep) && (!kind.NotLeader? || r != p.leader) {
        ids := ids + [r];
      }
    }
    assert p.replicas[..|p.replicas|] == p.replicas;
  }

  /** The largest load seen and the first node with the smallest. */
  method LeastLoaded(ids: seq<NodeId>, load: NodeId -> Load) returns (least: int, leastId: NodeId)
    ensures ids == [] ==> least == -1 && leastId == 0
    ensures ids != [] ==> leastId in ids && forall x :: x in ids ==> load(leastId) <= load(x) <= least
    ensures ids != [] ==> exists x :: x in ids && load(x) == least
  {
    least, leastId := -1, 0;
    var most: int := 0xFFFF_FFFF;
    for i := 0 to |ids|
      invariant i == 0 ==> least == -1 && leastId == 0 && most == 0xFFFF_FFFF
      invariant i > 0 ==> leastId in ids[..i] && load(leastId) == most && exists x :: x in ids[..i] && load(x) == least
      invariant forall x :: x in ids[..i] ==> most <= load(x) <= least
    {
      assert ids[..i + 1] == ids[..i] + [ids[i]];
      var concurrent := load(ids[i]);
      assert ids[i] in ids[..i + 1];
      if concurrent > least { least := concurrent; }
      if concurrent < most { most, leastId := concurrent, ids[i]; }
    }
    assert ids[..|ids|] == ids;
  }

  method Nearest(ids: seq<NodeId>, near: set<NodeId>) returns (pool: seq<NodeId>)
    ensures pool == if Filter(ids, near) != [] then Filter(ids, near) else ids
  {
    var close: seq<NodeId>, others: seq<NodeId> := [], [];
    for i := 0 to |ids|
      invariant close == Filter(ids[..i], near) && (close == [] ==> others == ids[..i])
    {
      assert ids[..i + 1][..i] == ids[..i];
      if ids[i] in near { close := close + [ids[i]]; } else { others := others + [ids[i]]; }
    }
    assert ids[..|ids|] == ids;
    pool := if |close| > 0 then close else others;
  }

  /** LeastConnection no longer takes turns once a connection has more than ten requests under way. */
  ghost predicate Crowded(kind: ClientType, pool: seq<NodeId>, load: NodeId -> Load) {
    kind.LeastConnection? && exists x :: x in pool && load(x) > 10
  }

  /**
   * load are the connections' loads, near the servers in the router's own zone. With a connection
   * above ten requests LeastConnection takes the least loaded node, and NearestConnection stays in
   * the zone while it can.
   */
  method GetNodeId(kind: ClientType, p: Partition, known: set<NodeId>, strict: bool, faulty: set<NodeId>,
                   load: NodeId -> Load, near: set<NodeId>, rr: RoundRobin) returns (n: NodeId)
    modifies rr
    ensures kind.Leader? ==> n == p.leader
    ensures !kind.Leader? ==> Picked(kind, p, known, strict, faulty, n)
    ensures kind.LeastConnection? && (exists x :: x in EligibleSet(kind, p, known, strict, faulty) && load(x) > 10) ==>
              forall x :: x in EligibleSet(kind, p, known, strict, faulty) ==> load(n) <= load(x)
    ensures kind.NearestConnection? && (exists x :: x in EligibleSet(kind, p, known, strict, faulty) && x in near) ==>
              n in near
    ensures !kind.Leader? && n != 0 ==>
              && n in p.replicas && n in known && n !in faulty && (strict ==> n in p.inStep)
              && (kind.NotLeader? ==> n != p.leader)
    ensures var pool := Pool(kind, p, known, strict, faulty, near);
            var turn := Turn(old(rr.counters), p.id);
            !kind.Leader? && pool != [] && !Crowded(kind, pool, load) ==>
              n == pool[turn % |pool|] && rr.counters == old(rr.counters)[p.id := turn + 1]
  {
    if kind.Leader? {
      return p.leader;
    }
    var ids := EligibleIds(kind, p, known, strict, faulty);
    PoolMembers(kind, p, known, strict, faulty, near);
    var pool := ids;
    if kind.LeastConnection? {
      var least, leastId := LeastLoaded(ids, load);
      if least > 10 {
        return leastId;
      }
    } else if kind.NearestConnection? {
      pool := Nearest(ids, near);
    }
    n := rr.Next(p.id, pool);
    assert pool != [] ==> n in pool;
  }

  lemma PoolMembers(kind: ClientType, p: Partition, known: set<NodeId>, strict: bool, faulty: set<NodeId>,
                    near: set<NodeId>)
    ensures var pool, all := Pool(kind, p, known, strict, faulty, near), EligibleSet(kind, p, known, strict, faulty);
            && (pool == [] <==> all == {}) && (forall x :: x in pool ==> x in all)
            && (!kind.NearestConnection? ==> forall x :: x in pool <==> x in all)
            && (kind.NearestConnection? && (exists x :: x in all && x in near) ==> forall x :: x in pool ==> x in near)
  {
    var all := EligibleSet(kind, p, known, strict, faulty);
    var ids := Filter(p.replicas, all);
    FilterHas(p.replicas, all);
    FilterHas(ids, near);
    if ids != [] { assert ids[0] in ids; }
    if x :| x in all { assert x in ids; }
  }

  /** Over as many turns in a row as the pool is long, whatever the first, each of its positions is taken once. */
  lemma EveryoneGetsATurn(pool: seq<NodeId>, first: nat, i: nat)
    requires i < |pool|
    ensures exists t :: first <= t < first + |pool| && t % |pool| == i && pool[t % |pool|] == pool[i]
    ensures forall t, u :: first <= t < u < first + |pool| ==> t % |pool| != u % |pool|
  {
    var m := |pool|;
    var t := if i >= first % m then first + i - first % m else first + m + i - first % m;
    ModPlus(first, t - first, m);
    assert first <= t < first + m && t % m == i && pool[t % m] == pool[i];
    forall t, u | first <= t < u < first + m ensures t % m != u % m { ModPlus(t, u - t, m); }
  }

  lemma ModPlus(a: nat, d: nat, m: nat)
    requires d < m
    ensures (a + d) % m == if a % m + d < m then a % m + d else a % m + d - m
  {
    var q := a / m;
    assert a == q * m + a % m;
    if a % m + d < m {
      assert a + d == q * m + (a % m + d);
      Quotient(a + d, q, a % m + d, m);
    } else {
      assert a + d == (q + 1) * m + (a % m + d - m);
      Quotient(a + d, q + 1, a % m + d - m, m);
    }
  }

  lemma Quotient(x: nat, q: nat, r: nat, m: nat)
    requires m > 0 && r < m && x == q * m + r
    ensures x % m == r
  {
    var d := x / m - q;
    assert d * m == r - x % m;
    assert d > 0 ==> d * m >= m;
    assert d < 0 ==> d * m + m <= 0;
  }

  function FaultyNum(replicas: seq<NodeId>, faulty: set<NodeId>): nat {
    if replicas == [] then 0
    else FaultyNum(replicas[..|replicas| - 1], faulty) + if replicas[|replicas| - 1] in faulty then 1 else 0
  }

  method ReplicasFaultyNum(replicas: seq<NodeId>, faulty: set<NodeId>) returns (c: nat)
    ensures c == FaultyNum(replicas, faulty)
  {
    c := 0;
    for i := 0 to |replicas|
      invariant c == FaultyNum(replicas[..i], faulty)
    {
      assert replicas[..i + 1][..i] == replicas[..i];
      if replicas[i] in faulty {
        c := c + 1;
      }
    }
    assert replicas[..|replicas|] == replicas;
  }

  lemma {:induction false} AllFaulty(replicas: seq<NodeId>, faulty: set<NodeId>)
    ensures FaultyNum(replicas, faulty) <= |replicas|
    ensures FaultyNum(replicas, faulty) == |replicas| <==> forall n :: n in replicas ==> n in faulty
  {
    if replicas != [] {
      var last := |replicas| - 1;
      AllFaulty(replicas[..last], faulty);
      assert replicas == replicas[..last] + [replicas[last]];
    }
  }

  /** What one attempt comes to. Aborted: another partition has already failed the request. */
  datatype Outcome = Ok | Aborted | Refused | OtherError

  /**
   * The retry loop. outcomes are the attempts' results, marks the nodes other requests mark faulty
   * meanwhile, load(k) the loads at the k-th pick; no mark expires during the request.
   */
  method SearchFromPartition(kind: ClientType, p: Partition, known: set<NodeId>, strict: bool, faulty: set<NodeId>,
                             rr: RoundRobin, load: nat -> NodeId -> Load, near: set<NodeId>, outcomes: seq<Outcome>,
                             marks: seq<set<NodeId>>)
    returns (tried: seq<NodeId>, now: set<NodeId>, last: Outcome)
    requires |outcomes| >= |p.replicas| && |marks| >= |p.replicas|
    modifies rr
    ensures |tried| <= |p.replicas| && faulty <= now
    ensures kind.Leader? ==> forall i :: 0 <= i < |tried| ==> tried[i] == p.leader
    ensures !kind.Leader? ==> forall i :: 0 <= i < |tried| && tried[i] != 0 ==>
              && tried[i] in p.replicas && tried[i] in known && tried[i] !in faulty
              && (strict ==> tried[i] in p.inStep) && (kind.NotLeader? ==> tried[i] != p.leader)
    ensures !kind.Leader? ==> forall i, j :: 0 <= i < j < |tried| && tried[i] != 0 ==> tried[i] != tried[j]
    ensures last.Refused? && !kind.Leader? ==> EligibleSet(kind, p, known, strict, now) == {}
    ensures last.Refused? && !kind.Leader? ==>
              forall n :: Eligible(kind, p, known, strict, faulty, n) ==> MarkedIn(tried, marks, |tried|, n)
    ensures last.Refused? ==> |tried| == |p.replicas| || forall n :: n in p.replicas ==> n in now
    ensures !last.Refused? ==> tried != [] && last == outcomes[|tried| - 1]
    ensures forall i :: 0 <= i < |tried| ==> outcomes[i].Refused? || i == |tried| - 1
    ensures var refusals := if last.Refused? then |tried| else |tried| - 1;
            Tracks(faulty, tried, marks, refusals, now)
  {
    tried, now, last := [], faulty, Refused;
    var node := GetNodeId(kind, p, known, strict, now, load(0), near, rr);
    var faultyNum := ReplicasFaultyNum(p.replicas, now);
    EligibleSize(kind, p, known, strict, now);
    AllFaulty(p.replicas, now);
    while |p.replicas| > faultyNum && |tried| < |p.replicas|
      invariant |tried| <= |p.replicas| && faulty <= now && last.Refused?
      invariant faultyNum == FaultyNum(p.replicas, now)
      invariant kind.Leader? ==> node == p.leader && forall i :: 0 <= i < |tried| ==> tried[i] == p.leader
      invariant !kind.Leader? ==>
                  Picked(kind, p, known, strict, now, node) && Spread(kind, p, known, strict, faulty, now, tried)
      invariant !kind.Leader? ==> HasRoom(kind, p, known, strict, now, |tried|)
      invariant forall i :: 0 <= i < |tried| ==> outcomes[i].Refused?
      invariant Tracks(faulty, tried, marks, |tried|, now)
      decreases |p.replicas| - |tried|
    {
      var k := |tried|;
      if !kind.Leader? {
        SpreadStep(kind, p, known, strict, faulty, now, tried, node, marks[k]);
        RoomStep(kind, p, known, strict, now, k, node, marks[k]);
      }
      TracksStep(faulty, tried, marks, now, node);
      tried := tried + [node];
      if !outcomes[k].Refused? {
        last := outcomes[k];
        return;
      }
      now := now + {node} + marks[k];
      node := GetNodeId(kind, p, known, strict, now, load(k + 1), near, rr);
      faultyNum := ReplicasFaultyNum(p.replicas, now);
    }
    AllFaulty(p.replicas, now);
    if !kind.Leader? { NoneIsLeft(kind, p, known, strict, faulty, now, tried, marks); }
  }

  lemma NoneIsLeft(kind: ClientType, p: Partition, known: set<NodeId>, strict: bool, faulty: set<NodeId>,
                   now: set<NodeId>, tried: seq<NodeId>, marks: seq<set<NodeId>>)
    requires |tried| <= |marks| && Tracks(faulty, tried, marks, |tried|, now)
    requires HasRoom(kind, p, known, strict, now, |tried|)
    requires |tried| >= |p.replicas| || forall n :: n in p.replicas ==> n in now
    ensures EligibleSet(kind, p, known, strict, now) == {}
    ensures forall n :: Eligible(kind, p, known, strict, faulty, n) ==> MarkedIn(tried, marks, |tried|, n)
  {
    var left := EligibleSet(kind, p, known, strict, now);
    forall n | Eligible(kind, p, known, strict, faulty, n) ensures MarkedIn(tried, marks, |tried|, n) {
      assert n !in left;
    }
  }

  /** The node was refused at one of the first k attempts, or another request marked it then. */
  ghost predicate MarkedIn(tried: seq<NodeId>, marks: seq<set<NodeId>>, k: int, n: NodeId)
    requires k <= |tried| && k <= |marks|
  {
    exists i :: 0 <= i < k && (n == tried[i] || n in marks[i])
  }

  /** What is marked: what was at the start, and what the first k attempts marked. */
  ghost predicate Tracks(faulty: set<NodeId>, tried: seq<NodeId>, marks: seq<set<NodeId>>, k: int, now: set<NodeId>)
    requires k <= |tried| && k <= |marks|
  {
    forall n :: n in now <==> n in faulty || MarkedIn(tried, marks, k, n)
  }

  lemma TracksStep(faulty: set<NodeId>, tried: seq<NodeId>, marks: seq<set<NodeId>>, now: set<NodeId>, node: NodeId)
    requires |tried| < |marks| && Tracks(faulty, tried, marks, |tried|, now)
    ensures Tracks(faulty, tried + [node], marks, |tried|, now)
    ensures Tracks(faulty, tried + [node], marks, |tried| + 1, now + {node} + marks[|tried|])
  {
    forall n
      ensures MarkedIn(tried + [node], marks, |tried|, n) <==> MarkedIn(tried, marks, |tried|, n)
      ensures MarkedIn(tried + [node], marks, |tried| + 1, n) <==>
                MarkedIn(tried, marks, |tried|, n) || n == node || n in marks[|tried|]
    {
      MarkedStepAt(tried, marks, node, n);
    }
  }

  lemma MarkedStepAt(tried: seq<NodeId>, marks: seq<set<NodeId>>, node: NodeId, n: NodeId)
    requires |tried| < |marks|
    ensures var k := |tried|;
            && (MarkedIn(tried + [node], marks, k, n) <==> MarkedIn(tried, marks, k, n))
            && (MarkedIn(tried + [node], marks, k + 1, n) <==>
                  MarkedIn(tried, marks, k, n) || n == node || n in marks[k])
  {
    var k, more := |tried|, tried + [node];
    if i :| 0 <= i < k && (n == tried[i] || n in marks[i]) { assert more[i] == tried[i]; }
    if i :| 0 <= i < k + 1 && (n == more[i] || n in marks[i]) { assert i < k ==> more[i] == tried[i]; }
    if n == node || n in marks[k] { assert n == more[k] || n in marks[k]; }
  }

  predicate Picked(kind: ClientType, p: Partition, known: set<NodeId>, strict: bool, now: set<NodeId>, node: NodeId) {
    if EligibleSet(kind, p, known, strict, now) == {} then node == 0
        else node in EligibleSet(kind, p, known, strict, now)
  }

  /** The nodes tried were eligible at the start, are marked by now, and differ. */
  predicate Spread(kind: ClientType, p: Partition, known: set<NodeId>, strict: bool, faulty: set<NodeId>,
                   now: set<NodeId>, tried: seq<NodeId>) {
    && (forall i :: 0 <= i < |tried| && tried[i] != 0 ==>
         Eligible(kind, p, known, strict, faulty, tried[i]) && tried[i] in now)
    && (forall i, j :: 0 <= i < j < |tried| && tried[i] != 0 ==> tried[i] != tried[j])
  }

  /** As many attempts are left as there are eligible nodes. */
  predicate HasRoom(kind: ClientType, p: Partition, known: set<NodeId>, strict: bool, now: set<NodeId>, tries: nat) {
    EligibleSet(kind, p, known, strict, now) == {} || |EligibleSet(kind, p, known, strict, now)| + tries <= |p.replicas|
  }

  lemma SpreadStep(kind: ClientType, p: Partition, known: set<NodeId>, strict: bool, faulty: set<NodeId>,
                   now: set<NodeId>, tried: seq<NodeId>, node: NodeId, more: set<NodeId>)
    requires faulty <= now && Picked(kind, p, known, strict, now, node)
               && Spread(kind, p, known, strict, faulty, now, tried)
    ensures Spread(kind, p, known, strict, faulty, now + {node} + more, tried + [node])
  {
  }

  lemma RoomStep(kind: ClientType, p: Partition, known: set<NodeId>, strict: bool, now: set<NodeId>, tries: nat,
                 node: NodeId, more: set<NodeId>)
    requires Picked(kind, p, known, strict, now, node) && HasRoom(kind, p, known, strict, now, tries)
    ensures HasRoom(kind, p, known, strict, now + {node} + more, tries + 1)
  {
    var before, after := EligibleSet(kind, p, known, strict, now),
        EligibleSet(kind, p, known, strict, now + {node} + more);
    if after != {} {
      assert after <= before - {node};
      Smaller(after, before - {node});
    }
  }

  lemma Smaller(a: set<NodeId>, b: set<NodeId>)
    requires a <= b
    ensures |a| <= |b|
  {
    assert b == a + (b - a);
  }

  function SetOf(s: seq<NodeId>): set<NodeId> {
    set n | n in s
  }

  lemma EligibleSize(kind: ClientType, p: Partition, known: set<NodeId>, strict: bool, now: set<NodeId>)
    ensures |EligibleSet(kind, p, known, strict, now)| <= |p.replicas|
  {
    SetOfSize(p.replicas);
    Smaller(EligibleSet(kind, p, known, strict, now), SetOf(p.replicas));
  }

  lemma {:induction false} SetOfSize(s: seq<NodeId>)
    ensures |SetOf(s)| <= |s|
  {
    if s != [] {
      SetOfSize(s[1..]);
      assert SetOf(s) == SetOf(s[1..]) + {s[0]};
    }
  }
}
