/**
 * BackupHandler.export: walk the documents with GetDoc(next), write them to files of
 * a fixed batch size, upload each file, then upload a ".done" marker.
 */
module DocExport {
  import opened ScalarQuery

  /** The first live docid from d on, -1 when there is none. */
  function NextLive(live: set<nat>, maxDocid: nat, d: nat): (r: int)
    ensures r == -1 <==> forall x :: d <= x < maxDocid ==> x !in live
    ensures r != -1 ==> d <= r < maxDocid && r in live && forall x :: d <= x < r ==> x !in live
    decreases maxDocid - d
  {
    if d >= maxDocid then -1 else if d in live then d else NextLive(live, maxDocid, d + 1)
  }

  /** Engine::GetDoc: this docid, or the next live one after it; -1 on error. */
  method GetDoc(maxDocid: nat, bitmap: set<nat>, docid: int, next: bool) returns (found: int)
    ensures !next ==> found == if docid >= 0 && docid in UpTo(maxDocid) - bitmap then docid else -1
    ensures next && docid >= -1 ==> found == NextLive(UpTo(maxDocid) - bitmap, maxDocid, docid + 1)
    ensures next && docid < -1 ==> found == -1
  {
    if (if next then docid < -1 else docid < 0) || docid >= maxDocid { return -1; }
    var d := docid;
    if next {
      d := d + 1;
      while d < maxDocid && d in bitmap
        invariant docid < d <= maxDocid
        invariant NextLive(UpTo(maxDocid) - bitmap, maxDocid, d)
                    == NextLive(UpTo(maxDocid) - bitmap, maxDocid, docid + 1)
      {
        d := d + 1;
      }
      if d >= maxDocid { return -1; }
    } else if d in bitmap {
      return -1;
    }
    found := d;
  }

  /** The live docids from d on. */
  function LiveFrom(live: set<nat>, maxDocid: nat, d: nat): seq<nat>
    decreases maxDocid - d
  {
    if d >= maxDocid then []
    else if d in live then [d] + LiveFrom(live, maxDocid, d + 1)
    else LiveFrom(live, maxDocid, d + 1)
  }

  /** Each live docid once, ascending. */
  lemma {:induction false} LiveFromIsAscending(live: set<nat>, maxDocid: nat, d: nat)
    ensures var r := LiveFrom(live, maxDocid, d);
            && (forall x :: x in r <==> d <= x < maxDocid && x in live)
            && (forall i, j :: 0 <= i < j < |r| ==> r[i] < r[j])
    decreases maxDocid - d
  {
    if d < maxDocid {
      LiveFromIsAscending(live, maxDocid, d + 1);
      var rest := LiveFrom(live, maxDocid, d + 1);
      assert forall i :: 0 <= i < |rest| ==> rest[i] in rest;
    }
  }

  lemma {:induction false} LiveFromNext(live: set<nat>, maxDocid: nat, d: nat)
    ensures var n := NextLive(live, maxDocid, d);
            LiveFrom(live, maxDocid, d) == if n == -1 then [] else [n] + LiveFrom(live, maxDocid, n + 1)
    decreases maxDocid - d
  {
    if d < maxDocid && d !in live { LiveFromNext(live, maxDocid, d + 1); }
  }

  function Flatten(batches: seq<seq<nat>>): seq<nat> {
    if batches == [] then [] else Flatten(batches[..|batches| - 1]) + batches[|batches| - 1]
  }

  lemma FlattenSnoc(batches: seq<seq<nat>>, b: seq<nat>)
    ensures Flatten(batches + [b]) == Flatten(batches) + b
  {
    assert (batches + [b])[..|batches|] == batches;
  }

  /** How many documents are written before a read or a write fails. */
  function Reached(n: nat, total: nat, readOk: nat -> bool, writeOk: nat -> bool): (r: nat)
    requires total <= n
    ensures total <= r <= n
    decreases n - total
  {
    if total == n || !(readOk(total) && writeOk(total)) then total else Reached(n, total + 1, readOk, writeOk)
  }

  lemma {:induction false} ReachedIsFirstFailure(n: nat, total: nat, readOk: nat -> bool, writeOk: nat -> bool)
    requires total <= n
    ensures var r := Reached(n, total, readOk, writeOk);
            && (forall k :: total <= k < r ==> readOk(k) && writeOk(k))
            && (r < n ==> !(readOk(r) && writeOk(r)))
    decreases n - total
  {
    if total < n && readOk(total) && writeOk(total) { ReachedIsFirstFailure(n, total + 1, readOk, writeOk); }
  }

  predicate Batched(batches: seq<seq<nat>>, size: nat) {
    forall i :: 0 <= i < |batches| ==>
        |batches[i]| <= size && |batches[i]| > 0 && (i < |batches| - 1 ==> |batches[i]| == size)
  }

  lemma ModStep(total: nat, size: nat)
    requires size > 0
    ensures (total + 1) % size == if total % size == size - 1 then 0 else total % size + 1
  {
    var q, r := total / size, total % size;
    assert total + 1 == q * size + (r + 1);
    if r == size - 1 {
      assert total + 1 == (q + 1) * size;
      ModUnique(total + 1, size, q + 1, 0);
    } else {
      ModUnique(total + 1, size, q, r + 1);
    }
  }

  lemma ModUnique(x: nat, size: nat, q: nat, r: nat)
    requires size > 0 && r < size && x == q * size + r
    ensures x % size == r
  {
    var d := x / size - q;
    assert x == (x / size) * size + x % size;
    assert d * size == r - x % size;
    assert d > 0 ==> d * size >= size;
    assert d < 0 ==> d * size <= -1 * size;
  }

  /** The next document in line: what GetDoc returns, seen in the list of all live docids. */
  lemma NextInLine(live: set<nat>, m: nat, total: nat, nextDocid: int)
    requires nextDocid >= -1
    requires var all := LiveFrom(live, m, 0); total <= |all| && all[total..] == LiveFrom(live, m, nextDocid + 1)
    ensures var all, found := LiveFrom(live, m, 0), NextLive(live, m, nextDocid + 1);
            if found == -1 then total == |all|
            else total < |all| && all[total] == found && all[total + 1..] == LiveFrom(live, m, found + 1)
                 && all[..total + 1] == all[..total] + [found]
  {
    var all, found := LiveFrom(live, m, 0), NextLive(live, m, nextDocid + 1);
    LiveFromNext(live, m, nextDocid + 1);
    if found != -1 {
      assert all[total..][0] == found;
      assert all[total..][1..] == all[total + 1..];
    }
  }

  /** Full files uploaded so far and the current file's fill level after total documents. */
  predicate Filled(uploaded: seq<seq<nat>>, file: seq<nat>, total: nat, size: nat) {
    size > 0 && |file| == total % size && forall i :: 0 <= i < |uploaded| ==> |uploaded[i]| == size
  }

  /** Write one document; roll over to a new file when the batch is full. */
  method WriteDoc(uploaded: seq<seq<nat>>, file: seq<nat>, total: nat, doc: nat, size: nat, uploadOk: bool)
    returns (uploads: seq<seq<nat>>, current: seq<nat>, ok: bool)
    requires Filled(uploaded, file, total, size)
    ensures ok ==>
              && Filled(uploads, current, total + 1, size)
              && Flatten(uploads) + current == Flatten(uploaded) + file + [doc]
    ensures uploadOk ==> ok
    ensures !ok ==> uploads == uploaded
    ensures |uploads| >= |uploaded|
    ensures uploads == uploaded || (uploadOk && |uploads| == |uploaded| + 1)
    ensures !ok ==> !uploadOk
  {
    uploads, current, ok := uploaded, file + [doc], true;
    ModStep(total, size);
    if (total + 1) % size == 0 {
      if !uploadOk { return uploaded, current, false; }
      FlattenSnoc(uploaded, current);
      uploads, current := uploaded + [current], [];
    }
  }

  lemma UploadedIsPrefix(sent: seq<nat>, file: seq<nat>, all: seq<nat>, total: nat)
    requires total <= |all| && sent + file == all[..total]
    ensures sent <= all
  {
    assert sent == (sent + file)[..|sent|];
  }

  /** The first n uploads succeed. */
  ghost predicate AllOk(uploadOk: nat -> bool, n: nat) {
    forall k: nat :: k < n ==> uploadOk(k)
  }

  lemma OneMoreOk(uploadOk: nat -> bool, n: nat)
    requires AllOk(uploadOk, n) && uploadOk(n)
    ensures AllOk(uploadOk, n + 1)
  {
  }

  /**
   * readOk, writeOk and uploadOk say whether the k-th read, write and upload succeed, doneOk whether
   * the done marker can be written and uploaded. The uploaded files concatenate to the live docids in
   * ascending order, each once, cut where a read or write first failed; the marker is uploaded all the
   * same. The first upload that fails ends the export.
   */
  method Export(maxDocid: nat, bitmap: set<nat>, batchSize: nat, readOk: nat -> bool, writeOk: nat -> bool,
                uploadOk: nat -> bool, doneOk: bool)
    returns (uploaded: seq<seq<nat>>, done: bool)
    requires batchSize > 0
    ensures Flatten(uploaded) <= LiveFrom(UpTo(maxDocid) - bitmap, maxDocid, 0)
    ensures Batched(uploaded, batchSize)
    ensures done ==> var all := LiveFrom(UpTo(maxDocid) - bitmap, maxDocid, 0);
                     Flatten(uploaded) == all[..Reached(|all|, 0, readOk, writeOk)]
    ensures done ==> doneOk
    ensures (forall k :: uploadOk(k)) ==> done == doneOk
    ensures AllOk(uploadOk, |uploaded|)
    ensures !done && doneOk ==> !uploadOk(|uploaded|)
  {
    ghost var all := LiveFrom(UpTo(maxDocid) - bitmap, maxDocid, 0);
    var nextDocid := -1;
    var total := 0;
    var file: seq<nat> := [];
    uploaded, done := [], false;
    while true
      invariant -1 <= nextDocid <= maxDocid && total <= |all|
      invariant all[total..] == LiveFrom(UpTo(maxDocid) - bitmap, maxDocid, nextDocid + 1)
      invariant Flatten(uploaded) + file == all[..total] && Filled(uploaded, file, total, batchSize)
      invariant AllOk(uploadOk, |uploaded|)
      invariant Reached(|all|, 0, readOk, writeOk) == Reached(|all|, total, readOk, writeOk)
      decreases maxDocid - nextDocid
    {
      NextInLine(UpTo(maxDocid) - bitmap, maxDocid, total, nextDocid);
      var found := GetDoc(maxDocid, bitmap, nextDocid, true);
      if !readOk(total) || found == -1 { break; }
      nextDocid := found;
      if !writeOk(total) { break; }
      UploadedIsPrefix(Flatten(uploaded), file, all, total);
      var ok;
      if uploadOk(|uploaded|) { OneMoreOk(uploadOk, |uploaded|); }
      uploaded, file, ok := WriteDoc(uploaded, file, total, found, batchSize, uploadOk(|uploaded|));
      if !ok { return; }
      total := total + 1;
    }
    UploadedIsPrefix(Flatten(uploaded), file, all, total);
    if total % batchSize != 0 {
      if !uploadOk(|uploaded|) { return; }
      OneMoreOk(uploadOk, |uploaded|);
      FlattenSnoc(uploaded, file);
      uploaded := uploaded + [file];
    }
    done := doneOk;
  }

  /** The done marker means a complete export exactly when nothing failed before the last document. */
  lemma DoneMeansComplete(all: seq<nat>, uploaded: seq<seq<nat>>, readOk: nat -> bool, writeOk: nat -> bool)
    requires Flatten(uploaded) == all[..Reached(|all|, 0, readOk, writeOk)]
    ensures Flatten(uploaded) == all <==> forall k :: 0 <= k < |all| ==> readOk(k) && writeOk(k)
  {
    var r := Reached(|all|, 0, readOk, writeOk);
    ReachedIsFirstFailure(|all|, 0, readOk, writeOk);
    if r == |all| { assert all[..r] == all; } else { assert |all[..r]| == r; }
  }
}
