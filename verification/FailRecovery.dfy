/**
 * The master's scan over failed servers: each partition of a dead server gets a replica on a
 * fresh server, the dead one leaves the membership, and the fail record keeps the partitions
 * that could not be moved. A membership change is one atomic step that succeeds or fails.
 */
module FailRecovery {
  import opened Options

  type NodeId = nat
  type Pid = nat

  datatype Server = Server(hostIp: string, hostRack: string, hostZone: string, partitions: set<Pid>)

  /** The failure domain under the anti-affinity setting; "" when there is none. */
  function Domain(level: int, s: Server): string {
    match level
    case 1 => s.hostIp
    case 2 => s.hostRack
    case 3 => s.hostZone
    case _ => ""
  }

  datatype FailServer = FailServer(node: Server, pids: seq<Pid>)

  /** removePartitionID: the first occurrence goes. */
  function Removed(pids: seq<Pid>, pid: Pid): seq<Pid> {
    if pids == [] then []
    else if pids[0] == pid then pids[1..]
    else [pids[0]] + Removed(pids[1..], pid)
  }

  method RemovePartitionID(pids: seq<Pid>, pid: Pid) returns (r: seq<Pid>)
    ensures r == Removed(pids, pid)
  {
    for i := 0 to |pids|
      invariant Removed(pids, pid) == pids[..i] + Removed(pids[i..], pid)
    {
      assert pids[i..][1..] == pids[i + 1..];
      if pids[i] == pid {
        return pids[..i] + pids[i + 1..];
      }
      assert pids[..i + 1] == pids[..i] + [pids[i]];
    }
    assert pids[|pids|..] == [] && pids[..|pids|] == pids;
    return pids;
  }

  lemma {:induction false} RemovedContents(pids: seq<Pid>, pid: Pid)
    ensures multiset(Removed(pids, pid)) == multiset(pids) - multiset{pid}
  {
    if pids != [] {
      assert pids == [pids[0]] + pids[1..];
      RemovedContents(pids[1..], pid);
    }
  }

  function RemovedAll(pids: seq<Pid>, gone: seq<Pid>): seq<Pid>
    decreases gone
  {
    if gone == [] then pids else RemovedAll(Removed(pids, gone[0]), gone[1..])
  }

  /** The record keeps exactly what was not recovered. */
  lemma {:induction false} RemovedAllContents(pids: seq<Pid>, gone: seq<Pid>)
    requires multiset(gone) <= multiset(pids)
    ensures multiset(RemovedAll(pids, gone)) + multiset(gone) == multiset(pids)
    decreases gone
  {
    if gone != [] {
      assert gone == [gone[0]] + gone[1..];
      RemovedContents(pids, gone[0]);
      assert multiset(gone) == multiset{gone[0]} + multiset(gone[1..]);
      RemovedAllContents(Removed(pids, gone[0]), gone[1..]);
    }
  }

  type Servers = map<NodeId, Server>
  type Members = map<Pid, set<NodeId>>

  /**
   * What the outside does while one partition is recovered. servers is the registry QueryServers
   * reads at that turn: a server's own heartbeat writes its list of partitions, membership changes
   * do not.
   */
  datatype Weather = Weather(spaceFound: bool, replicaNum: nat, live: set<NodeId>, servers: Servers, addOk: bool,
                             removeOk: bool)

  /** The failed server, its failure domain under the setting, and the setting. */
  datatype Failure = Failure(node: NodeId, domain: string, level: int)

  /** Where each turn's partition went. */
  type Picks = seq<Option<NodeId>>

  /** A server the partition may move to: not the failed one, outside its domain, not a live replica. */
  predicate Available(servers: Servers, replicas: set<NodeId>, f: Failure, n: NodeId) {
    n in servers && n != f.node && (f.domain != "" ==> Domain(f.level, servers[n]) != f.domain) && n !in replicas
  }

  function Load(servers: Servers, n: NodeId): nat {
    if n in servers then |servers[n].partitions| else 0
  }

  predicate ByLoad(servers: Servers, ids: seq<NodeId>) {
    forall i, j :: 0 <= i < j < |ids| ==> Load(servers, ids[i]) <= Load(servers, ids[j])
  }

  /** sort.Slice by the number of partitions; how ties fall does not matter here. */
  method SortByLoad(servers: Servers, ids: seq<NodeId>) returns (sorted: seq<NodeId>)
    ensures ByLoad(servers, sorted) && multiset(sorted) == multiset(ids) && |sorted| == |ids|
    ensures forall n :: n in sorted <==> n in ids
  {
    sorted := [];
    for i := 0 to |ids|
      invariant ByLoad(servers, sorted) && multiset(sorted) == multiset(ids[..i]) && |sorted| == i
    {
      assert ids[..i + 1] == ids[..i] + [ids[i]];
      sorted := InsertByLoad(servers, sorted, ids[i]);
    }
    assert ids[..|ids|] == ids;
    forall n ensures n in sorted <==> n in ids { assert n in multiset(sorted) <==> n in multiset(ids); }
  }

  method InsertByLoad(servers: Servers, ids: seq<NodeId>, n: NodeId) returns (r: seq<NodeId>)
    requires ByLoad(servers, ids)
    ensures ByLoad(servers, r) && multiset(r) == multiset(ids) + multiset{n} && |r| == |ids| + 1
  {
    var p := 0;
    while p < |ids| && Load(servers, ids[p]) <= Load(servers, n)
      invariant p <= |ids| && forall i :: 0 <= i < p ==> Load(servers, ids[i]) <= Load(servers, n)
    {
      p := p + 1;
    }
    r := ids[..p] + [n] + ids[p..];
    InsertedByLoad(servers, ids, p, n);
    InsertedContents(ids, p, n);
  }

  lemma InsertedContents(ids: seq<NodeId>, p: nat, n: NodeId)
    requires p <= |ids|
    ensures multiset(ids[..p] + [n] + ids[p..]) == multiset(ids) + multiset{n}
  {
    assert ids == ids[..p] + ids[p..];
  }

  lemma InsertedInOrder(servers: Servers, ids: seq<NodeId>, p: nat, n: NodeId, i: nat, j: nat)
    requires ByLoad(servers, ids) && p <= |ids| && i < j <= |ids|
    requires forall k :: 0 <= k < p ==> Load(servers, ids[k]) <= Load(servers, n)
    requires p < |ids| ==> Load(servers, n) <= Load(servers, ids[p])
    ensures var r := ids[..p] + [n] + ids[p..]; Load(servers, r[i]) <= Load(servers, r[j])
  {
    var r := ids[..p] + [n] + ids[p..];
    assert r[i] == if i < p then ids[i] else if i == p then n else ids[i - 1];
    assert r[j] == if j < p then ids[j] else if j == p then n else ids[j - 1];
  }

  lemma InsertedByLoad(servers: Servers, ids: seq<NodeId>, p: nat, n: NodeId)
    requires ByLoad(servers, ids) && p <= |ids| && forall i :: 0 <= i < p ==> Load(servers, ids[i]) <= Load(servers, n)
    requires p < |ids| ==> Load(servers, n) <= Load(servers, ids[p])
    ensures ByLoad(servers, ids[..p] + [n] + ids[p..])
  {
    var r := ids[..p] + [n] + ids[p..];
    forall i, j | 0 <= i < j < |r| ensures Load(servers, r[i]) <= Load(servers, r[j]) {
      InsertedInOrder(servers, ids, p, n, i, j);
    }
  }

  /** The filter loop over the servers. */
  method AvailableServers(servers: Servers, replicas: set<NodeId>, f: Failure) returns (found: seq<NodeId>)
    ensures forall n :: n in found <==> Available(servers, replicas, f, n)
  {
    var ids := Listing(servers);
    found := [];
    for i := 0 to |ids|
      invariant forall n :: n in found <==> n in ids[..i] && Available(servers, replicas, f, n)
    {
      var n := ids[i];
      assert n in ids && forall m :: m in ids[..i + 1] <==> m in ids[..i] || m == n;
      if n == f.node { continue; }
      if f.domain != "" && Domain(f.level, servers[n]) == f.domain { continue; }
      if n in replicas { continue; }
      found := found + [n];
    }
    assert ids[..|ids|] == ids;
  }

  /** The servers, in no particular order. */
  method Listing(servers: Servers) returns (ids: seq<NodeId>)
    ensures forall n :: n in ids <==> n in servers
  {
    ids := [];
    var todo := servers.Keys;
    while todo != {}
      invariant todo <= servers.Keys && forall n :: n in ids <==> n in servers.Keys - todo
      decreases |todo|
    {
      var n :| n in todo;
      ids, todo := ids + [n], todo - {n};
    }
  }

  /** A server that may come first: available and without a registered partition. */
  predicate Fresh(w: Weather, replicas: set<NodeId>, f: Failure, n: NodeId) {
    Available(w.servers, replicas, f, n) && w.servers[n].partitions == {}
  }

  /** The emptiest available server, used only if it has no partition. */
  method Candidate(w: Weather, replicas: set<NodeId>, f: Failure) returns (c: Option<NodeId>)
    ensures c.Some? ==> Fresh(w, replicas, f, c.value)
    ensures c.None? ==> forall n :: !Fresh(w, replicas, f, n)
  {
    var found := AvailableServers(w.servers, replicas, f);
    if |found| == 0 {
      return None;
    }
    found := SortByLoad(w.servers, found);
    assert found[0] in found;
    if |w.servers[found[0]].partitions| > 0 {
      forall n | Available(w.servers, replicas, f, n) ensures w.servers[n].partitions != {} {
        assert n in found;
        var i :| 0 <= i < |found| && found[i] == n;
        assert Load(w.servers, found[0]) <= Load(w.servers, found[i]);
      }
      return None;
    }
    return Some(found[0]);
  }

  // One turn: the partition's pick, and the membership after it.

  /** The tests before a server is looked for, and the two requests' success. */
  predicate Quorate(w: Weather, members: set<NodeId>) {
    w.spaceFound && |members * w.live| >= (w.replicaNum + 1) / 2
  }

  /** A move to this server can be carried out. ConfAddNode refuses a replica of the partition, live or not. */
  predicate Movable(w: Weather, members: set<NodeId>, f: Failure, n: NodeId) {
    Quorate(w, members) && w.addOk && Fresh(w, members * w.live, f, n) && n !in members
  }

  /** No move: nothing can be moved, or a replica that is not live came first among the fresh servers. */
  predicate Stuck(w: Weather, members: set<NodeId>, f: Failure) {
    || !Quorate(w, members) || !w.addOk
    || (forall n :: n in w.servers ==> !Fresh(w, members * w.live, f, n))
    || (exists n :: n in members && Fresh(w, members * w.live, f, n))
  }

  predicate Allowed(w: Weather, members: set<NodeId>, f: Failure, pick: Option<NodeId>) {
    if pick.Some? then Movable(w, members, f, pick.value) else Stuck(w, members, f)
  }

  function MembersAfter(w: Weather, members: set<NodeId>, f: Failure, pick: Option<NodeId>): set<NodeId> {
    if pick.None? then members
    else if w.removeOk then members + {pick.value} - {f.node}
    else members + {pick.value}
  }

  /** The membership after the first k turns. */
  function After(m0: Members, f: Failure, pids: seq<Pid>, weathers: seq<Weather>, picks: Picks, k: nat): Members
    requires k <= |pids| && k <= |weathers| && k <= |picks|
  {
    if k == 0 then m0
    else
      var m, pid := After(m0, f, pids, weathers, picks, k - 1), pids[k - 1];
      if pid in m then m[pid := MembersAfter(weathers[k - 1], m[pid], f, picks[k - 1])] else m
  }

  /** Every turn's partition was found, and its pick was allowed by what that turn read. */
  ghost predicate IsScan(m0: Members, f: Failure, pids: seq<Pid>, weathers: seq<Weather>, picks: Picks) {
    && |picks| <= |pids| <= |weathers|
    && forall k :: 0 <= k < |picks| ==> TurnOk(m0, f, pids, weathers, picks, k)
  }

  ghost predicate TurnOk(m0: Members, f: Failure, pids: seq<Pid>, weathers: seq<Weather>, picks: Picks, k: nat)
    requires k < |picks| <= |pids| <= |weathers|
  {
    && pids[k] in m0 && pids[k] in After(m0, f, pids, weathers, picks, k)
    && Allowed(weathers[k], After(m0, f, pids, weathers, picks, k)[pids[k]], f, picks[k])
  }

  /** The partitions of the first k turns that moved and lost the failed server. */
  function Recovered(pids: seq<Pid>, weathers: seq<Weather>, picks: Picks, k: nat): seq<Pid>
    requires k <= |pids| && k <= |weathers| && k <= |picks|
  {
    if k == 0 then []
    else
      Recovered(pids, weathers, picks, k - 1)
      + (if picks[k - 1].Some? && weathers[k - 1].removeOk then [pids[k - 1]] else [])
  }

  class Master {
    var members: Members
    var fails: map<NodeId, FailServer>

    /** One partition of the failed server. done: it moved and the failed server was removed as well. */
    method Recover(f: Failure, pid: Pid, w: Weather) returns (moved: Option<NodeId>, done: bool)
      requires pid in members
      modifies this`members
      ensures Allowed(w, old(members)[pid], f, moved) && (done <==> moved.Some? && w.removeOk)
      ensures members == old(members)[pid := MembersAfter(w, old(members)[pid], f, moved)]
    {
      if !w.spaceFound {
        return None, false;
      }
      var replicas := members[pid] * w.live;
      if |replicas| < (w.replicaNum + 1) / 2 {
        return None, false;
      }
      var c := Candidate(w, replicas, f);
      if c.None? || !w.addOk || c.value in members[pid] {
        return None, false;
      }
      members := members[pid := members[pid] + {c.value}];
      if !w.removeOk {
        return c, false;
      }
      members := members[pid := members[pid] - {f.node}];
      return c, true;
    }

    /** The loop; a partition that is not found throws. */
    method RecoverAll(f: Failure, pids: seq<Pid>, weathers: seq<Weather>)
      returns (picks: Picks, recovered: seq<Pid>, thrown: bool)
      requires |weathers| >= |pids|
      modifies this`members
      ensures IsScan(old(members), f, pids, weathers, picks)
      ensures members == After(old(members), f, pids, weathers, picks, |picks|)
      ensures recovered == Recovered(pids, weathers, picks, |picks|)
      ensures if thrown then |picks| < |pids| && pids[|picks|] !in old(members) else |picks| == |pids|
    {
      picks, recovered, thrown := [], [], false;
      ghost var m0 := members;
      for k := 0 to |pids|
        invariant |picks| == k && IsScan(m0, f, pids, weathers, picks)
        invariant members == After(m0, f, pids, weathers, picks, k)
        invariant recovered == Recovered(pids, weathers, picks, k)
      {
        AfterKeys(m0, f, pids, weathers, picks, k);
        if pids[k] !in members {
          return picks, recovered, true;
        }
        var moved, done := Recover(f, pids[k], weathers[k]);
        ScanStep(m0, f, pids, weathers, picks, moved);
        picks := picks + [moved];
        if done {
          recovered := recovered + [pids[k]];
        }
      }
    }

    /** The record without the recovered partitions: deleted, then put back if any are left. */
    method UpdateRecord(failed: NodeId, recovered: seq<Pid>, deleteOk: bool, putOk: bool)
      requires failed in fails
      modifies this`fails
      ensures fails == RecordsAfter(old(fails), failed, recovered, deleteOk, putOk)
    {
      var record := fails[failed];
      var left := record.pids;
      assert recovered[0..] == recovered;
      for i := 0 to |recovered|
        invariant fails == old(fails) && RemovedAll(left, recovered[i..]) == RemovedAll(record.pids, recovered)
      {
        assert recovered[i..][1..] == recovered[i + 1..];
        left := RemovePartitionID(left, recovered[i]);
      }
      assert recovered[|recovered|..] == [];
      if deleteOk {
        fails := fails - {failed};
      }
      if |left| > 0 && putOk {
        fails := fails[failed := record.(pids := left)];
      }
    }

    /**
     * The scan of one fail record. thrown: a partition was not found, which ends the scan with the
     * record as it was. deleteOk and putOk are the record's store writes.
     */
    method Scan(failed: NodeId, level: int, weathers: seq<Weather>, deleteOk: bool, putOk: bool)
      returns (picks: Picks, recovered: seq<Pid>, thrown: bool)
      requires failed in fails && |weathers| >= |fails[failed].pids|
      modifies this
      ensures var record := old(fails)[failed];
              var f := Failure(failed, Domain(level, record.node), level);
              && IsScan(old(members), f, record.pids, weathers, picks)
              && members == After(old(members), f, record.pids, weathers, picks, |picks|)
              && recovered == Recovered(record.pids, weathers, picks, |picks|)
              && fails == if thrown then old(fails) else RecordsAfter(old(fails), failed, recovered, deleteOk, putOk)
    {
      var record := fails[failed];
      picks, recovered, thrown := RecoverAll(Failure(failed, Domain(level, record.node), level), record.pids, weathers);
      if !thrown {
        UpdateRecord(failed, recovered, deleteOk, putOk);
      }
    }
  }

  lemma {:induction false} AfterKeys(m0: Members, f: Failure, pids: seq<Pid>, weathers: seq<Weather>, picks: Picks,
                                     k: nat)
    requires k <= |pids| && k <= |weathers| && k <= |picks|
    ensures After(m0, f, pids, weathers, picks, k).Keys == m0.Keys
  {
    if k > 0 { AfterKeys(m0, f, pids, weathers, picks, k - 1); }
  }

  /** Earlier turns do not depend on later picks. */
  lemma {:induction false} AfterPrefix(m0: Members, f: Failure, pids: seq<Pid>, weathers: seq<Weather>, picks: Picks,
                                       more: Picks, k: nat)
    requires k <= |pids| && k <= |weathers| && k <= |picks|
    ensures After(m0, f, pids, weathers, picks + more, k) == After(m0, f, pids, weathers, picks, k)
    ensures Recovered(pids, weathers, picks + more, k) == Recovered(pids, weathers, picks, k)
  {
    if k > 0 { AfterPrefix(m0, f, pids, weathers, picks, more, k - 1); }
  }

  lemma ScanStep(m0: Members, f: Failure, pids: seq<Pid>, weathers: seq<Weather>, picks: Picks, moved: Option<NodeId>)
    requires IsScan(m0, f, pids, weathers, picks) && |picks| < |pids|
    requires var m := After(m0, f, pids, weathers, picks, |picks|);
             pids[|picks|] in m && Allowed(weathers[|picks|], m[pids[|picks|]], f, moved)
    ensures IsScan(m0, f, pids, weathers, picks + [moved])
    ensures var k := |picks|; var m := After(m0, f, pids, weathers, picks, k);
            && After(m0, f, pids, weathers, picks + [moved], k + 1)
                 == m[pids[k] := MembersAfter(weathers[k], m[pids[k]], f, moved)]
            && Recovered(pids, weathers, picks + [moved], k + 1)
               == Recovered(pids, weathers, picks, k) + (if moved.Some? && weathers[k].removeOk then [pids[k]] else [])
  {
    AfterKeys(m0, f, pids, weathers, picks, |picks|);
    forall k | 0 <= k <= |picks| ensures TurnOk(m0, f, pids, weathers, picks + [moved], k) {
      AfterPrefix(m0, f, pids, weathers, picks, [moved], k);
      if k < |picks| { assert TurnOk(m0, f, pids, weathers, picks, k); }
    }
    AfterPrefix(m0, f, pids, weathers, picks, [moved], |picks|);
  }

  // What a whole scan means.

  /** Members are only ever lost to the removal of the failed server, and a pick stays a member. */
  lemma {:induction false} AfterGrows(m0: Members, f: Failure, pids: seq<Pid>, weathers: seq<Weather>, picks: Picks,
                                      i: nat, k: nat, pid: Pid)
    requires i <= k <= |picks| && IsScan(m0, f, pids, weathers, picks) && pid in m0
    ensures pid in After(m0, f, pids, weathers, picks, i) && pid in After(m0, f, pids, weathers, picks, k)
    ensures After(m0, f, pids, weathers, picks, i)[pid] - {f.node} <= After(m0, f, pids, weathers, picks, k)[pid]
    decreases k
  {
    AfterKeys(m0, f, pids, weathers, picks, i);
    AfterKeys(m0, f, pids, weathers, picks, k);
    if i < k { AfterGrows(m0, f, pids, weathers, picks, i, k - 1, pid); }
  }

  /**
   * Every move of a scan was to a server that the registry read at that turn showed without
   * partitions, that is not the failed one, outside its domain and no replica, and the new replica is
   * still a member at the end.
   */
  lemma MovesAreSound(m0: Members, f: Failure, pids: seq<Pid>, weathers: seq<Weather>, picks: Picks, k: nat)
    requires IsScan(m0, f, pids, weathers, picks) && k < |picks| && picks[k].Some?
    ensures var n := picks[k].value;
            && n in weathers[k].servers && weathers[k].servers[n].partitions == {} && n != f.node && pids[k] in m0
            && n !in m0[pids[k]]
            && pids[k] in After(m0, f, pids, weathers, picks, k)
            && 2 * |After(m0, f, pids, weathers, picks, k)[pids[k]] * weathers[k].live| >= weathers[k].replicaNum
            && pids[k] in After(m0, f, pids, weathers, picks, |picks|)
                 && n in After(m0, f, pids, weathers, picks, |picks|)[pids[k]]
  {
    assert TurnOk(m0, f, pids, weathers, picks, k);
    AfterGrows(m0, f, pids, weathers, picks, 0, k, pids[k]);
    AfterGrows(m0, f, pids, weathers, picks, k + 1, |picks|, pids[k]);
  }

  /**
   * In every scan of a server's fail record the targets are outside its failure domain: another host,
   * rack or zone as the setting says, when the failed server's is known.
   */
  lemma MovesLeaveTheDomain(m0: Members, record: FailServer, failed: NodeId, level: int, weathers: seq<Weather>,
                            picks: Picks, k: nat)
    requires IsScan(m0, Failure(failed, Domain(level, record.node), level), record.pids, weathers, picks)
    requires k < |picks| && picks[k].Some?
    ensures picks[k].value in weathers[k].servers
    ensures var target, dead := weathers[k].servers[picks[k].value], record.node;
            && (level == 1 && dead.hostIp != "" ==> target.hostIp != dead.hostIp)
            && (level == 2 && dead.hostRack != "" ==> target.hostRack != dead.hostRack)
            && (level == 3 && dead.hostZone != "" ==> target.hostZone != dead.hostZone)
  {
    assert TurnOk(m0, Failure(failed, Domain(level, record.node), level), record.pids, weathers, picks, k);
  }

  /** The failed server, once removed from a partition, does not come back. */
  lemma {:induction false} StaysRemoved(m0: Members, f: Failure, pids: seq<Pid>, weathers: seq<Weather>, picks: Picks,
                                        i: nat, k: nat, pid: Pid)
    requires i <= k <= |picks| && IsScan(m0, f, pids, weathers, picks) && pid in m0
    requires pid in After(m0, f, pids, weathers, picks, i) && f.node !in After(m0, f, pids, weathers, picks, i)[pid]
    ensures pid in After(m0, f, pids, weathers, picks, k) && f.node !in After(m0, f, pids, weathers, picks, k)[pid]
    decreases k
  {
    if i < k {
      StaysRemoved(m0, f, pids, weathers, picks, i, k - 1, pid);
      assert TurnOk(m0, f, pids, weathers, picks, k - 1);
    }
  }

  /** A recovered partition is one of the record's, and the failed server is no longer its member. */
  lemma {:induction false} RecoveredIsRid(m0: Members, f: Failure, pids: seq<Pid>, weathers: seq<Weather>,
                                          picks: Picks, k: nat)
    requires IsScan(m0, f, pids, weathers, picks) && k <= |picks|
    ensures multiset(Recovered(pids, weathers, picks, k)) <= multiset(pids[..k])
    ensures forall p :: p in Recovered(pids, weathers, picks, k) ==>
              p in After(m0, f, pids, weathers, picks, |picks|)
                  && f.node !in After(m0, f, pids, weathers, picks, |picks|)[p]
  {
    if k > 0 {
      RecoveredIsRid(m0, f, pids, weathers, picks, k - 1);
      assert pids[..k] == pids[..k - 1] + [pids[k - 1]];
      if picks[k - 1].Some? && weathers[k - 1].removeOk {
        assert TurnOk(m0, f, pids, weathers, picks, k - 1);
        StaysRemoved(m0, f, pids, weathers, picks, k, |picks|, pids[k - 1]);
      }
    }
  }

  // When two partitions go to one server.

  predicate NoRepeat(pids: seq<Pid>) {
    forall i, j :: 0 <= i < j < |pids| ==> pids[i] != pids[j]
  }

  /** In a record without repetition each turn sees its partition's members as they were. */
  lemma {:induction false} OthersUntouched(m0: Members, f: Failure, pids: seq<Pid>, weathers: seq<Weather>,
                                           picks: Picks, i: nat, k: nat)
    requires NoRepeat(pids) && i <= k < |pids| && i <= |picks| && |pids| <= |weathers| && pids[k] in m0
    ensures var m := After(m0, f, pids, weathers, picks, i); pids[k] in m && m[pids[k]] == m0[pids[k]]
  {
    if i > 0 { OthersUntouched(m0, f, pids, weathers, picks, i - 1, k); }
  }

  ghost predicate TargetsDiffer(picks: Picks) {
    forall i, j :: 0 <= i < j < |picks| && picks[i].Some? && picks[j].Some? ==> picks[i] != picks[j]
  }

  /** The server can be moved to at this turn. */
  predicate OpenAt(m0: Members, f: Failure, pids: seq<Pid>, weathers: seq<Weather>, k: nat, n: NodeId)
    requires k < |pids| <= |weathers|
  {
    pids[k] in m0 && Movable(weathers[k], m0[pids[k]], f, n)
  }

  /** A choice that the turn allows. */
  lemma SomeChoice(w: Weather, members: set<NodeId>, f: Failure) returns (pick: Option<NodeId>)
    ensures Allowed(w, members, f, pick)
  {
    if Stuck(w, members, f) {
      pick := None;
    } else {
      var n :| n in w.servers && Fresh(w, members * w.live, f, n);
      pick := Some(n);
    }
  }

  /** A scan that takes n at turns i and j and anything allowed elsewhere. */
  lemma {:induction false} ScanThrough(m0: Members, f: Failure, pids: seq<Pid>, weathers: seq<Weather>, i: nat, j: nat,
                                       n: NodeId, k: nat)
    returns (picks: Picks)
    requires NoRepeat(pids) && |pids| <= |weathers| && k <= |pids| && i < |pids| && j < |pids|
    requires forall l :: 0 <= l < |pids| ==> pids[l] in m0
    requires OpenAt(m0, f, pids, weathers, i, n) && OpenAt(m0, f, pids, weathers, j, n)
    ensures |picks| == k && IsScan(m0, f, pids, weathers, picks)
    ensures (i < k ==> picks[i] == Some(n)) && (j < k ==> picks[j] == Some(n))
  {
    picks := [];
    if k > 0 {
      var before := ScanThrough(m0, f, pids, weathers, i, j, n, k - 1);
      OthersUntouched(m0, f, pids, weathers, before, k - 1, k - 1);
      var pick := SomeChoice(weathers[k - 1], m0[pids[k - 1]], f);
      if k - 1 == i || k - 1 == j { pick := Some(n); }
      ScanStep(m0, f, pids, weathers, before, pick);
      picks := before + [pick];
    }
  }

  /**
   * The moves of every scan of the record go to different servers if and only if no server can be
   * moved to at two of its turns: a registry that was read again before its target's heartbeat shows
   * that target still empty.
   */
  lemma TargetsDifferIff(m0: Members, f: Failure, pids: seq<Pid>, weathers: seq<Weather>)
    requires NoRepeat(pids) && |pids| <= |weathers| && forall l :: 0 <= l < |pids| ==> pids[l] in m0
    ensures (forall picks: Picks :: |picks| == |pids| && IsScan(m0, f, pids, weathers, picks) ==> TargetsDiffer(picks))
            <==> !(exists i, j, n :: 0 <= i < j < |pids|
                                     && OpenAt(m0, f, pids, weathers, i, n) && OpenAt(m0, f, pids, weathers, j, n))
  {
    if i, j, n :| 0 <= i < j < |pids| && OpenAt(m0, f, pids, weathers, i, n) && OpenAt(m0, f, pids, weathers, j, n) {
      var picks := ScanThrough(m0, f, pids, weathers, i, j, n, |pids|);
      assert !TargetsDiffer(picks);
    } else {
      forall picks: Picks | |picks| == |pids| && IsScan(m0, f, pids, weathers, picks) ensures TargetsDiffer(picks) {
        forall k | 0 <= k < |picks| && picks[k].Some? ensures OpenAt(m0, f, pids, weathers, k, picks[k].value) {
          assert TurnOk(m0, f, pids, weathers, picks, k);
          OthersUntouched(m0, f, pids, weathers, picks, k, k);
        }
      }
    }
  }

  /** A target whose heartbeat listed any partition before the later read is not taken again. */
  lemma RefreshedIsNotTaken(m0: Members, f: Failure, pids: seq<Pid>, weathers: seq<Weather>, picks: Picks, i: nat,
                            j: nat)
    requires IsScan(m0, f, pids, weathers, picks) && i < j < |picks| && picks[i].Some? && picks[j].Some?
    requires var n := picks[i].value; n in weathers[j].servers ==> weathers[j].servers[n].partitions != {}
    ensures picks[i] != picks[j]
  {
    assert TurnOk(m0, f, pids, weathers, picks, j);
  }

  /** With one empty server and no heartbeat during the scan, every partition goes to that server. */
  lemma OneServerTakesAll(m0: Members, f: Failure, pids: seq<Pid>, weathers: seq<Weather>, picks: Picks, n: NodeId,
                          k: nat)
    requires NoRepeat(pids) && IsScan(m0, f, pids, weathers, picks) && k < |picks|
    requires OpenAt(m0, f, pids, weathers, k, n)
    requires forall x :: x in weathers[k].servers && x != n ==> weathers[k].servers[x].partitions != {}
    ensures picks[k] == Some(n)
  {
    assert TurnOk(m0, f, pids, weathers, picks, k);
    OthersUntouched(m0, f, pids, weathers, picks, k, k);
  }

  /** So two partitions of one record end on one server. */
  lemma TwoMovesOneTarget(m0: Members, f: Failure, p: Pid, q: Pid, w: Weather, n: NodeId)
    requires p != q && p in m0 && q in m0 && Movable(w, m0[p], f, n) && Movable(w, m0[q], f, n)
    requires forall x :: x in w.servers && x != n ==> w.servers[x].partitions != {}
    ensures IsScan(m0, f, [p, q], [w, w], [Some(n), Some(n)])
    ensures forall picks :: |picks| == 2 && IsScan(m0, f, [p, q], [w, w], picks) ==> picks == [Some(n), Some(n)]
  {
    var pids, ws := [p, q], [w, w];
    assert OpenAt(m0, f, pids, ws, 0, n) && OpenAt(m0, f, pids, ws, 1, n);
    var both := ScanThrough(m0, f, pids, ws, 0, 1, n, 2);
    assert both == [Some(n), Some(n)];
    forall picks: Picks | |picks| == 2 && IsScan(m0, f, pids, ws, picks) ensures picks == [Some(n), Some(n)] {
      OneServerTakesAll(m0, f, pids, ws, picks, n, 0);
      OneServerTakesAll(m0, f, pids, ws, picks, n, 1);
    }
  }

  /** The fail records once one of them is deleted and, if partitions are left, put back. */
  function RecordsAfter(fails: map<NodeId, FailServer>, failed: NodeId, recovered: seq<Pid>, deleteOk: bool,
                        putOk: bool): map<NodeId, FailServer>
    requires failed in fails
  {
    var left := RemovedAll(fails[failed].pids, recovered);
    var deleted := if deleteOk then fails - {failed} else fails;
    if |left| > 0 && putOk then deleted[failed := fails[failed].(pids := left)] else deleted
  }

  function Kept(fails: map<NodeId, FailServer>, failed: NodeId): seq<Pid> {
    if failed in fails then fails[failed].pids else []
  }

  /**
   * Every partition of the record is recovered or still in it, if and only if the record was not
   * deleted and then, with partitions left, not put back.
   */
  lemma NothingLostIff(fails: map<NodeId, FailServer>, failed: NodeId, recovered: seq<Pid>, deleteOk: bool, putOk: bool)
    requires failed in fails && multiset(recovered) <= multiset(fails[failed].pids) && NoRepeat(fails[failed].pids)
    ensures (forall p :: p in fails[failed].pids ==>
              p in recovered || p in Kept(RecordsAfter(fails, failed, recovered, deleteOk, putOk), failed))
            <==> !(deleteOk && !putOk && |recovered| < |fails[failed].pids|)
  {
    var pids := fails[failed].pids;
    var left := RemovedAll(pids, recovered);
    RemovedAllContents(pids, recovered);
    assert |left| + |recovered| == |pids| by {
      assert |multiset(left) + multiset(recovered)| == |multiset(pids)|;
    }
    forall p | p in pids ensures p in recovered <==> p !in left {
      OnlyOnce(pids, p);
      assert p in multiset(pids);
      assert multiset(left)[p] + multiset(recovered)[p] == (multiset(left) + multiset(recovered))[p] == 1;
      assert p in left <==> p in multiset(left);
      assert p in recovered <==> p in multiset(recovered);
    }
    if |left| > 0 {
      var p := left[0];
      assert p in multiset(left) && p in multiset(left) + multiset(recovered) && p in pids;
    }
  }

  /** With both store writes done, the record is gone if everything was recovered, and else lists exactly the rest. */
  lemma RecordIsTheRest(fails: map<NodeId, FailServer>, failed: NodeId, recovered: seq<Pid>)
    requires failed in fails && multiset(recovered) <= multiset(fails[failed].pids)
    ensures var after := RecordsAfter(fails, failed, recovered, true, true);
            && (failed in after <==> |recovered| < |fails[failed].pids|)
            && (failed in after ==>
                  && after[failed].node == fails[failed].node
                  && multiset(after[failed].pids) == multiset(fails[failed].pids) - multiset(recovered))
            && after - {failed} == fails - {failed}
  {
    var left := RemovedAll(fails[failed].pids, recovered);
    RemovedAllContents(fails[failed].pids, recovered);
    assert |multiset(left) + multiset(recovered)| == |multiset(fails[failed].pids)|;
    assert multiset(left) == multiset(fails[failed].pids) - multiset(recovered);
  }

  lemma {:induction false} OnlyOnce(pids: seq<Pid>, p: Pid)
    requires NoRepeat(pids) && p in pids
    ensures multiset(pids)[p] == 1
  {
    assert pids == [pids[0]] + pids[1..];
    if pids[0] == p {
      assert p !in pids[1..];
      assert p !in multiset(pids[1..]);
    } else {
      OnlyOnce(pids[1..], p);
    }
  }
}
