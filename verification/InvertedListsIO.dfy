/**
 * Saving and loading the real-time inverted lists of a vector index: WriteInvertedLists and
 * ReadInvertedLists over a byte stream, and what loading makes of the id table, the deleted
 * counters and the indexed count.
 */
module InvertedListsIO {
  import opened Bytes
  import opened Options

  const WORD := 8
  const ILAR := 0x72616c69
  const FULL := 0x6c6c7566

  /** kDelIdxMask: bit 63 of a stored id marks it deleted. */
  const DELETED := 0x8000_0000_0000_0000
  const LIMIT := 0x1_0000_0000_0000_0000
  const SHIFT := 0x1_0000_0000

  predicate IsDeleted(id: nat) {
    id >= DELETED
  }

  /** One bucket: the stored ids and codeBytes bytes of code for each. */
  datatype Bucket = Bucket(ids: seq<nat>, codes: ByteString)

  predicate BucketOk(codeBytes: nat, b: Bucket) {
    |b.codes| == |b.ids| * codeBytes && |b.ids| < SHIFT && forall i :: 0 <= i < |b.ids| ==> b.ids[i] < LIMIT
  }

  predicate BucketsOk(codeBytes: nat, buckets: seq<Bucket>) {
    forall i :: 0 <= i < |buckets| ==> BucketOk(codeBytes, buckets[i])
  }

  // Words of the stream, little endian.

  function Little(width: nat, v: nat): (s: ByteString)
    ensures |s| == width
  {
    if width == 0 then [] else [(v % 256) as Byte] + Little(width - 1, v / 256)
  }

  function FromLittle(s: ByteString): nat {
    if s == [] then 0 else s[0] as nat + 256 * FromLittle(s[1..])
  }

  lemma {:induction false} LittleRoundTrip(width: nat, v: nat)
    requires v < Pow256(width)
    ensures FromLittle(Little(width, v)) == v
    decreases width
  {
    if width > 0 {
      assert v / 256 < Pow256(width - 1);
      LittleRoundTrip(width - 1, v / 256);
      assert Little(width, v)[1..] == Little(width - 1, v / 256);
    }
  }

  /** READANDCHECK of n bytes. */
  function TakeBytes(s: ByteString, n: nat): Option<(ByteString, ByteString)> {
    if |s| < n then None else Some((s[..n], s[n..]))
  }

  function TakeWord(s: ByteString, width: nat): Option<(nat, ByteString)> {
    match TakeBytes(s, width)
    case None => None
    case Some(p) => Some((FromLittle(p.0), p.1))
  }

  lemma TakeWordBack(width: nat, v: nat, rest: ByteString)
    requires v < Pow256(width)
    ensures TakeWord(Little(width, v) + rest, width) == Some((v, rest))
  {
    LittleRoundTrip(width, v);
    var s := Little(width, v) + rest;
    assert s[..width] == Little(width, v) && s[width..] == rest;
  }

  function Words(vs: seq<nat>): ByteString {
    if vs == [] then [] else Little(WORD, vs[0]) + Words(vs[1..])
  }

  function TakeWords(s: ByteString, n: nat): Option<(seq<nat>, ByteString)>
    decreases n
  {
    if n == 0 then Some(([], s))
    else
      match TakeWord(s, WORD)
      case None => None
      case Some(p) =>
        match TakeWords(p.1, n - 1)
        case None => None
        case Some(q) => Some(([p.0] + q.0, q.1))
  }

  lemma WordLimit()
    ensures Pow256(WORD) == LIMIT && Pow256(4) == SHIFT
  {
    assert Pow256(4) == 256 * Pow256(3) && Pow256(3) == 256 * Pow256(2) && Pow256(2) == 256 * Pow256(1);
    assert Pow256(8) == 256 * Pow256(7) && Pow256(7) == 256 * Pow256(6) && Pow256(6) == 256 * Pow256(5)
        && Pow256(5) == 256 * Pow256(4);
  }

  lemma {:induction false} TakeWordsBack(vs: seq<nat>, rest: ByteString)
    requires forall i :: 0 <= i < |vs| ==> vs[i] < LIMIT
    ensures TakeWords(Words(vs) + rest, |vs|) == Some((vs, rest))
    decreases vs
  {
    if vs == [] {
      assert Words(vs) + rest == rest;
    } else {
      WordLimit();
      var tail := Words(vs[1..]) + rest;
      assert Words(vs) + rest == Little(WORD, vs[0]) + tail;
      TakeWordBack(WORD, vs[0], tail);
      TakeWordsBack(vs[1..], rest);
      assert [vs[0]] + vs[1..] == vs;
    }
  }

  // The file.

  function Sizes(buckets: seq<Bucket>): (r: seq<nat>)
    ensures |r| == |buckets| && forall i :: 0 <= i < |r| ==> r[i] == |buckets[i].ids|
  {
    if buckets == [] then [] else [|buckets[0].ids|] + Sizes(buckets[1..])
  }

  /** A bucket with no entries writes nothing. */
  function BucketBytes(b: Bucket): ByteString {
    if |b.ids| > 0 then b.codes + Words(b.ids) else []
  }

  function AllBytes(buckets: seq<Bucket>): ByteString {
    if buckets == [] then [] else BucketBytes(buckets[0]) + AllBytes(buckets[1..])
  }

  function Header(n: nat, codeBytes: nat): ByteString {
    Little(4, ILAR) + Little(WORD, n) + Little(WORD, codeBytes) + Little(4, FULL)
  }

  function Encoded(codeBytes: nat, buckets: seq<Bucket>): ByteString {
    Header(|buckets|, codeBytes) + (Little(WORD, |buckets|) + (Words(Sizes(buckets)) + AllBytes(buckets)))
  }

  function TakeBucket(s: ByteString, size: nat, codeBytes: nat): Option<(Bucket, ByteString)> {
    if size == 0 then Some((Bucket([], []), s))
    else
      match TakeBytes(s, size * codeBytes)
      case None => None
      case Some(p) =>
        match TakeWords(p.1, size)
        case None => None
        case Some(q) => Some((Bucket(q.0, p.0), q.1))
  }

  function TakeBuckets(s: ByteString, sizes: seq<nat>, codeBytes: nat): Option<seq<Bucket>>
    decreases sizes
  {
    if sizes == [] then Some([])
    else
      match TakeBucket(s, sizes[0], codeBytes)
      case None => None
      case Some(p) =>
        match TakeBuckets(p.1, sizes[1..], codeBytes)
        case None => None
        case Some(bs) => Some([p.0] + bs)
  }

  lemma TakeBucketBack(codeBytes: nat, b: Bucket, rest: ByteString)
    requires BucketOk(codeBytes, b)
    ensures TakeBucket(BucketBytes(b) + rest, |b.ids|, codeBytes) == Some((b, rest))
  {
    if |b.ids| > 0 {
      var s := BucketBytes(b) + rest;
      assert s == b.codes + (Words(b.ids) + rest);
      assert s[..|b.codes|] == b.codes && s[|b.codes|..] == Words(b.ids) + rest;
      TakeWordsBack(b.ids, rest);
    } else {
      assert b == Bucket([], []) && [] + rest == rest;
    }
  }

  lemma {:induction false} TakeBucketsBack(codeBytes: nat, buckets: seq<Bucket>)
    requires BucketsOk(codeBytes, buckets)
    ensures TakeBuckets(AllBytes(buckets), Sizes(buckets), codeBytes) == Some(buckets)
    decreases buckets
  {
    if buckets != [] {
      TakeBucketBack(codeBytes, buckets[0], AllBytes(buckets[1..]));
      TakeBucketsBack(codeBytes, buckets[1..]);
      assert Sizes(buckets)[1..] == Sizes(buckets[1..]);
      assert [buckets[0]] + buckets[1..] == buckets;
    }
  }

  datatype Loaded = Loaded(buckets: seq<Bucket>) | WrongShape | Malformed

  /** ReadInvertedLists up to the bytes of the buckets: a bad tag or a short stream is malformed. */
  function DecodedBody(s: ByteString, n: nat, codeBytes: nat): Loaded {
    match TakeWord(s, WORD)
    case None => Malformed
    case Some(c) =>
      if c.0 != n then Malformed
      else
        match TakeWords(c.1, n)
        case None => Malformed
        case Some(z) =>
          match TakeBuckets(z.1, z.0, codeBytes)
          case None => Malformed
          case Some(bs) => Loaded(bs)
  }

  function Decoded(s: ByteString, n: nat, codeBytes: nat): Loaded {
    match TakeBytes(s, 24)
    case None => Malformed
    case Some(p) =>
      var h, num, bytes, kind := FromLittle(p.0[..4]), FromLittle(p.0[4..12]), FromLittle(p.0[12..20]),
          FromLittle(p.0[20..]);
      if h != ILAR || kind != FULL then Malformed
      else if num != n || bytes != codeBytes then WrongShape
      else DecodedBody(p.1, n, codeBytes)
  }

  lemma FourParts(a: ByteString, b: ByteString, c: ByteString, d: ByteString, h: ByteString)
    requires |a| == 4 && |b| == 8 && |c| == 8 && |d| == 4 && h == a + b + c + d
    ensures |h| == 24 && h[..4] == a && h[4..12] == b && h[12..20] == c && h[20..] == d
  {
  }

  lemma {:induction false} BodyBack(codeBytes: nat, buckets: seq<Bucket>)
    requires BucketsOk(codeBytes, buckets) && |buckets| < LIMIT
    ensures DecodedBody(Little(WORD, |buckets|) + (Words(Sizes(buckets)) + AllBytes(buckets)), |buckets|, codeBytes)
              == Loaded(buckets)
  {
    WordLimit();
    TakeWordBack(WORD, |buckets|, Words(Sizes(buckets)) + AllBytes(buckets));
    forall i | 0 <= i < |buckets| ensures Sizes(buckets)[i] < LIMIT { assert BucketOk(codeBytes, buckets[i]); }
    TakeWordsBack(Sizes(buckets), AllBytes(buckets));
    TakeBucketsBack(codeBytes, buckets);
  }

  /** Reading back what was written restores every bucket, into a structure of the same shape and no other. */
  lemma {:induction false} RoundTrip(codeBytes: nat, buckets: seq<Bucket>, n: nat, bytes: nat)
    requires BucketsOk(codeBytes, buckets) && |buckets| < LIMIT && codeBytes < LIMIT
    ensures Decoded(Encoded(codeBytes, buckets), n, bytes) ==
              if n == |buckets| && bytes == codeBytes then Loaded(buckets) else WrongShape
  {
    WordLimit();
    var h := Header(|buckets|, codeBytes);
    var body := Little(WORD, |buckets|) + (Words(Sizes(buckets)) + AllBytes(buckets));
    FourParts(Little(4, ILAR), Little(WORD, |buckets|), Little(WORD, codeBytes), Little(4, FULL), h);
    LittleRoundTrip(4, ILAR);
    LittleRoundTrip(WORD, |buckets|);
    LittleRoundTrip(WORD, codeBytes);
    LittleRoundTrip(4, FULL);
    assert (h + body)[..24] == h && (h + body)[24..] == body;
    BodyBack(codeBytes, buckets);
  }

  // Where each id is, and how many are deleted.

  /** bno << 32 | pos. */
  function Pack(bno: nat, pos: nat): nat {
    bno * SHIFT + pos
  }

  lemma PackUnpacks(bno: nat, pos: nat)
    requires pos < SHIFT
    ensures Pack(bno, pos) / SHIFT == bno && Pack(bno, pos) % SHIFT == pos
  {
  }

  /** The last place of an undeleted id before position k of bucket b, packed; -1 for none. */
  function Where(buckets: seq<Bucket>, b: nat, k: nat, id: nat): int
    requires b < |buckets| && k <= |buckets[b].ids|
    decreases b, k
  {
    if k > 0 then
      if buckets[b].ids[k - 1] == id && !IsDeleted(id) then Pack(b, k - 1) else Where(buckets, b, k - 1, id)
    else if b > 0 then Where(buckets, b - 1, |buckets[b - 1].ids|, id)
    else -1
  }

  function DeletedCount(ids: seq<nat>, k: nat): nat
    requires k <= |ids|
  {
    if k == 0 then 0 else DeletedCount(ids, k - 1) + if IsDeleted(ids[k - 1]) then 1 else 0
  }

  function IndexedCount(buckets: seq<Bucket>, b: nat): int
    requires b <= |buckets|
  {
    if b == 0 then 0
    else IndexedCount(buckets, b - 1) + |buckets[b - 1].ids| - DeletedCount(buckets[b - 1].ids, |buckets[b - 1].ids|)
  }

  /** The id table: -1 beyond its end. */
  function At(positions: seq<int>, id: nat): int {
    if id < |positions| then positions[id] else -1
  }

  ghost predicate Maps(positions: seq<int>, buckets: seq<Bucket>, b: nat, k: nat)
    requires b < |buckets| && k <= |buckets[b].ids|
  {
    forall id: nat :: At(positions, id) == Where(buckets, b, k, id)
  }

  /** An undeleted id is in one place. */
  predicate Unique(buckets: seq<Bucket>) {
    forall b, p, c, q ::
      0 <= b < |buckets| && 0 <= p < |buckets[b].ids| && 0 <= c < |buckets| && 0 <= q < |buckets[c].ids|
      && !IsDeleted(buckets[b].ids[p]) && buckets[b].ids[p] == buckets[c].ids[q]
      ==> b == c && p == q
  }

  /** Then the table leads each undeleted id back to its own bucket and position. */
  lemma {:induction false} WhereIsPlace(buckets: seq<Bucket>, b: nat, k: nat, c: nat, q: nat)
    requires Unique(buckets) && b < |buckets| && k <= |buckets[b].ids|
    requires c < |buckets| && q < |buckets[c].ids| && !IsDeleted(buckets[c].ids[q]) && (c < b || (c == b && q < k))
    ensures Where(buckets, b, k, buckets[c].ids[q]) == Pack(c, q)
    decreases b, k
  {
    if k > 0 {
      if buckets[b].ids[k - 1] != buckets[c].ids[q] { WhereIsPlace(buckets, b, k - 1, c, q); }
    } else {
      WhereIsPlace(buckets, b - 1, |buckets[b - 1].ids|, c, q);
    }
  }

  lemma {:induction false} WhereNone(buckets: seq<Bucket>, b: nat, k: nat, id: nat)
    requires b < |buckets| && k <= |buckets[b].ids|
    requires IsDeleted(id) || forall c, q :: 0 <= c < |buckets| && 0 <= q < |buckets[c].ids| ==> buckets[c].ids[q] != id
    ensures Where(buckets, b, k, id) == -1
    decreases b, k
  {
    if k > 0 {
      WhereNone(buckets, b, k - 1, id);
    } else if b > 0 {
      WhereNone(buckets, b - 1, |buckets[b - 1].ids|, id);
    }
  }

  method CollectSizes(buckets: seq<Bucket>) returns (sizes: seq<nat>)
    ensures sizes == Sizes(buckets)
  {
    sizes := [];
    for i := 0 to |buckets|
      invariant |sizes| == i && forall k :: 0 <= k < i ==> sizes[k] == |buckets[k].ids|
    {
      sizes := sizes + [|buckets[i].ids|];
    }
  }

  lemma BytesStep(buckets: seq<Bucket>, i: nat, body: ByteString)
    requires i < |buckets|
    ensures body + AllBytes(buckets[i..]) == body + BucketBytes(buckets[i]) + AllBytes(buckets[i + 1..])
    ensures |buckets[i].ids| == 0 ==> body + BucketBytes(buckets[i]) == body
  {
    assert buckets[i..][0] == buckets[i] && buckets[i..][1..] == buckets[i + 1..];
  }

  method CollectBytes(buckets: seq<Bucket>) returns (body: ByteString)
    ensures body == AllBytes(buckets)
  {
    body := [];
    for i := 0 to |buckets|
      invariant body + AllBytes(buckets[i..]) == AllBytes(buckets)
    {
      BytesStep(buckets, i, body);
      if |buckets[i].ids| > 0 {
        body := body + (buckets[i].codes + Words(buckets[i].ids));
      }
    }
    assert buckets[|buckets|..] == [] && body + [] == body;
  }

  method WriteInvertedLists(codeBytes: nat, buckets: seq<Bucket>) returns (out: ByteString)
    ensures out == Encoded(codeBytes, buckets)
  {
    var sizes := CollectSizes(buckets);
    var body := CollectBytes(buckets);
    out := Header(|buckets|, codeBytes) + (Little(WORD, |buckets|) + (Words(sizes) + body));
  }

  class Lists {
    const codeBytes: nat
    var buckets: seq<Bucket>
    var positions: seq<int>
    var deletedNums: seq<nat>

    /** As Init leaves it. */
    ghost predicate Fresh()
      reads this
    {
      && (forall i :: 0 <= i < |buckets| ==> buckets[i] == Bucket([], []))
      && |deletedNums| == |buckets| && (forall i :: 0 <= i < |buckets| ==> deletedNums[i] == 0)
      && |positions| > 0 && (forall i :: 0 <= i < |positions| ==> positions[i] == -1)
    }

    /** Doubles the id table until the id fits. */
    method ExtendIDs(id: nat)
      requires |positions| > 0
      modifies this`positions
      ensures id < |positions| && |positions| >= |old(positions)|
      ensures forall v: nat :: At(positions, v) == At(old(positions), v)
    {
      while id >= |positions|
        invariant |positions| >= |old(positions)| > 0
        invariant forall v: nat :: At(positions, v) == At(old(positions), v)
        decreases id - |positions|
      {
        positions := positions + seq(|positions|, _ => -1);
      }
    }

    /** The id loop of one bucket. known: the whole file is well formed, with buckets all. */
    method MapIds(bno: nat, ids: seq<nat>, ghost known: bool, ghost all: seq<Bucket>)
      requires |positions| > 0 && bno < |deletedNums|
      requires known ==> bno < |all| && all[bno].ids == ids && deletedNums[bno] == 0 && Maps(positions, all, bno, 0)
      modifies this`positions, this`deletedNums
      ensures |positions| > 0 && |deletedNums| == |old(deletedNums)|
      ensures known ==>
                Maps(positions, all, bno, |ids|) && deletedNums == old(deletedNums)[bno := DeletedCount(ids, |ids|)]
    {
      for pos := 0 to |ids|
        invariant |positions| > 0 && |deletedNums| == |old(deletedNums)|
        invariant known ==>
                    Maps(positions, all, bno, pos) && deletedNums == old(deletedNums)[bno := DeletedCount(ids, pos)]
      {
        if IsDeleted(ids[pos]) {
          deletedNums := deletedNums[bno := deletedNums[bno] + 1];
        } else {
          ExtendIDs(ids[pos]);
          positions := positions[ids[pos] := Pack(bno, pos)];
        }
      }
    }

    /** The first b buckets are in place, the others as Init left them. */
    ghost predicate Filled(all: seq<Bucket>, b: nat)
      reads this
    {
      && b <= |all| == |buckets| == |deletedNums|
      && (forall i :: 0 <= i < b ==> buckets[i] == all[i] && deletedNums[i] == DeletedCount(all[i].ids, |all[i].ids|))
      && (forall i :: b <= i < |all| ==> buckets[i] == Bucket([], []) && deletedNums[i] == 0)
      && (if b == 0 then forall id: nat :: At(positions, id) == -1 else Maps(positions, all, b - 1, |all[b - 1].ids|))
    }

    /** One turn of the bucket loop on the bucket just read. */
    method LoadBucket(bno: nat, b: Bucket, count: int, ghost known: bool, ghost all: seq<Bucket>) returns (sum: int)
      requires bno < |buckets| == |deletedNums| && |positions| > 0 && (|b.ids| == 0 ==> b == Bucket([], []))
      requires known ==> bno < |all| && all[bno] == b && Filled(all, bno) && count == IndexedCount(all, bno)
      modifies this`buckets, this`positions, this`deletedNums
      ensures |buckets| == |deletedNums| == |old(buckets)| && |positions| > 0
      ensures known ==> Filled(all, bno + 1) && sum == IndexedCount(all, bno + 1)
    {
      if |b.ids| == 0 {
        return count;
      }
      buckets := buckets[bno := b];
      MapIds(bno, b.ids, known, all);
      sum := count + |b.ids| - deletedNums[bno];
    }

    /** The bucket loop. */
    method LoadBuckets(s: ByteString, sizes: seq<nat>) returns (ok: bool, count: int)
      requires Fresh() && |sizes| == |buckets|
      modifies this`buckets, this`positions, this`deletedNums
      ensures ok <==> TakeBuckets(s, sizes, codeBytes).Some?
      ensures ok ==> var all := TakeBuckets(s, sizes, codeBytes).value;
                     Filled(all, |all|) && count == IndexedCount(all, |all|)
    {
      ghost var result := TakeBuckets(s, sizes, codeBytes);
      ghost var known, all := result.Some?, if result.Some? then result.value else [];
      ghost var n := |buckets|;
      if known { TakeBucketsSize(s, sizes, codeBytes); }
      var rest := s;
      count := 0;
      assert sizes[0..] == sizes && (known ==> all[0..] == all);
      for k := 0 to |sizes|
        invariant |buckets| == |deletedNums| == n && |positions| > 0
        invariant TakeBuckets(rest, sizes[k..], codeBytes) == if known then Some(all[k..]) else None
        invariant known ==> |all| == n && Filled(all, k) && count == IndexedCount(all, k)
      {
        TakeBucketsHead(rest, sizes, k, codeBytes, known, all);
        var t := TakeBucket(rest, sizes[k], codeBytes);
        if t.None? {
          return false, count;
        }
        count := LoadBucket(k, t.value.0, count, known, all);
        rest := t.value.1;
      }
      assert sizes[|sizes|..] == [];
      ok := true;
    }

    /** Reading into a fresh structure: what it then holds is what the file says. */
    method ReadInvertedLists(s: ByteString) returns (status: Loaded, count: int)
      requires Fresh()
      modifies this`buckets, this`positions, this`deletedNums
      ensures status == Decoded(s, |old(buckets)|, codeBytes)
      ensures status.Loaded? ==>
                Filled(status.buckets, |status.buckets|) && count == IndexedCount(status.buckets, |status.buckets|)
    {
      count := 0;
      var p := TakeBytes(s, 24);
      if p.None? {
        return Malformed, count;
      }
      var head, n := p.value.0, |buckets|;
      if FromLittle(head[..4]) != ILAR || FromLittle(head[20..]) != FULL {
        return Malformed, count;
      }
      if FromLittle(head[4..12]) != n || FromLittle(head[12..20]) != codeBytes {
        return WrongShape, count;
      }
      var c := TakeWord(p.value.1, WORD);
      if c.None? || c.value.0 != n {
        return Malformed, count;
      }
      var z := TakeWords(c.value.1, n);
      if z.None? {
        return Malformed, count;
      }
      TakeWordsSize(c.value.1, n);
      var ok;
      ok, count := LoadBuckets(z.value.1, z.value.0);
      if !ok {
        return Malformed, count;
      }
      return Loaded(buckets), count;
    }
  }

  lemma {:induction false} TakeWordsSize(s: ByteString, n: nat)
    ensures TakeWords(s, n).Some? ==> |TakeWords(s, n).value.0| == n
    decreases n
  {
    if n > 0 && TakeWord(s, WORD).Some? { TakeWordsSize(TakeWord(s, WORD).value.1, n - 1); }
  }

  lemma {:induction false} TakeBucketsSize(s: ByteString, sizes: seq<nat>, codeBytes: nat)
    ensures TakeBuckets(s, sizes, codeBytes).Some? ==> |TakeBuckets(s, sizes, codeBytes).value| == |sizes|
    decreases sizes
  {
    if sizes != [] && TakeBucket(s, sizes[0], codeBytes).Some? {
      TakeBucketsSize(TakeBucket(s, sizes[0], codeBytes).value.1, sizes[1..], codeBytes);
    }
  }

  /** What one turn of the loop learns about the rest of the stream. */
  lemma TakeBucketsHead(rest: ByteString, sizes: seq<nat>, k: nat, codeBytes: nat, known: bool, all: seq<Bucket>)
    requires k < |sizes| && (known ==> k < |all|)
    requires TakeBuckets(rest, sizes[k..], codeBytes) == if known then Some(all[k..]) else None
    ensures var t := TakeBucket(rest, sizes[k], codeBytes);
            && (known ==> t.Some? && t.value.0 == all[k])
            && (t.Some? ==>
                  TakeBuckets(t.value.1, sizes[k + 1..], codeBytes) == if known then Some(all[k + 1..]) else None)
            && (t.Some? && |t.value.0.ids| == 0 ==> t.value.0 == Bucket([], []))
  {
    assert sizes[k..][0] == sizes[k] && sizes[k..][1..] == sizes[k + 1..];
    if known { assert all[k..][0] == all[k] && all[k..][1..] == all[k + 1..]; }
    var t := TakeBucket(rest, sizes[k], codeBytes);
    if sizes[k] > 0 && TakeBytes(rest, sizes[k] * codeBytes).Some? {
      TakeWordsSize(TakeBytes(rest, sizes[k] * codeBytes).value.1, sizes[k]);
    }
    if t.Some? && known {
      var r := TakeBuckets(t.value.1, sizes[k + 1..], codeBytes);
      assert r.Some? && [t.value.0] + r.value == all[k..];
      assert r.value == all[k + 1..];
    }
  }

  /**
   * Loading what was saved, when each undeleted id is in one place: the table leads every such id back
   * to its bucket and position and holds nothing else.
   */
  lemma LoadedTable(lists: Lists, buckets: seq<Bucket>, b: nat, p: nat, id: nat)
    requires Unique(buckets) && lists.Filled(buckets, |buckets|) && |buckets| > 0
    ensures b < |buckets| && p < |buckets[b].ids| && !IsDeleted(buckets[b].ids[p]) ==>
              At(lists.positions, buckets[b].ids[p]) == Pack(b, p)
    ensures IsDeleted(id)
              || (forall c, q :: 0 <= c < |buckets| && 0 <= q < |buckets[c].ids| ==> buckets[c].ids[q] != id) ==>
              At(lists.positions, id) == -1
  {
    var last := |buckets| - 1;
    if b < |buckets| && p < |buckets[b].ids| && !IsDeleted(buckets[b].ids[p]) {
      WhereIsPlace(buckets, last, |buckets[last].ids|, b, p);
    }
    if IsDeleted(id) || (forall c, q :: 0 <= c < |buckets| && 0 <= q < |buckets[c].ids| ==> buckets[c].ids[q] != id) {
      WhereNone(buckets, last, |buckets[last].ids|, id);
    }
  }

  function TotalIds(buckets: seq<Bucket>, b: nat): nat
    requires b <= |buckets|
  {
    if b == 0 then 0 else TotalIds(buckets, b - 1) + |buckets[b - 1].ids|
  }

  function DeletedIds(buckets: seq<Bucket>, b: nat): nat
    requires b <= |buckets|
  {
    if b == 0 then 0 else DeletedIds(buckets, b - 1) + DeletedCount(buckets[b - 1].ids, |buckets[b - 1].ids|)
  }

  lemma {:induction false} CountIsTotalMinusDeleted(buckets: seq<Bucket>, b: nat)
    requires b <= |buckets|
    ensures IndexedCount(buckets, b) == TotalIds(buckets, b) - DeletedIds(buckets, b)
  {
    if b > 0 { CountIsTotalMinusDeleted(buckets, b - 1); }
  }

  /** The table leads every undeleted id back to its bucket and position, and maps no other id. */
  ghost predicate Leads(positions: seq<int>, buckets: seq<Bucket>) {
    && (forall b, p :: 0 <= b < |buckets| && 0 <= p < |buckets[b].ids| && !IsDeleted(buckets[b].ids[p]) ==>
          At(positions, buckets[b].ids[p]) == Pack(b, p))
    && (forall id: nat :: IsDeleted(id) || NowhereIn(buckets, id) ==> At(positions, id) == -1)
  }

  ghost predicate NowhereIn(buckets: seq<Bucket>, id: nat) {
    forall c, q :: 0 <= c < |buckets| && 0 <= q < |buckets[c].ids| ==> buckets[c].ids[q] != id
  }

  lemma FilledLeads(lists: Lists, buckets: seq<Bucket>)
    requires Unique(buckets) && lists.Filled(buckets, |buckets|)
    ensures Leads(lists.positions, buckets)
  {
    if |buckets| > 0 {
      forall b, p | 0 <= b < |buckets| && 0 <= p < |buckets[b].ids| && !IsDeleted(buckets[b].ids[p])
        ensures At(lists.positions, buckets[b].ids[p]) == Pack(b, p)
      {
        LoadedTable(lists, buckets, b, p, 0);
      }
      forall id: nat | IsDeleted(id) || NowhereIn(buckets, id) ensures At(lists.positions, id) == -1 {
        LoadedTable(lists, buckets, 0, 0, id);
      }
    }
  }

  /**
   * Saving inverted lists and loading them into a fresh structure of the same shape restores the
   * buckets, counts what is indexed and finds every undeleted id in its place again.
   */
  method SaveAndLoad(lists: Lists, buckets: seq<Bucket>) returns (count: int)
    requires lists.Fresh() && |lists.buckets| == |buckets| < LIMIT && lists.codeBytes < LIMIT
    requires BucketsOk(lists.codeBytes, buckets) && Unique(buckets)
    modifies lists
    ensures lists.buckets == buckets && Leads(lists.positions, buckets)
    ensures count == TotalIds(buckets, |buckets|) - DeletedIds(buckets, |buckets|)
  {
    var file := WriteInvertedLists(lists.codeBytes, buckets);
    RoundTrip(lists.codeBytes, buckets, |buckets|, lists.codeBytes);
    var status;
    status, count := lists.ReadInvertedLists(file);
    FilledLeads(lists, buckets);
    CountIsTotalMinusDeleted(buckets, |buckets|);
  }

  // Where everything is in the file.

  lemma {:induction false} WordsSize(vs: seq<nat>)
    ensures |Words(vs)| == WORD * |vs|
  {
    if vs != [] { WordsSize(vs[1..]); }
  }

  lemma {:induction false} WordsAt(vs: seq<nat>, p: nat)
    requires p < |vs|
    ensures HasAt(Words(vs), WORD * p, Little(WORD, vs[p]))
    decreases vs
  {
    if p == 0 {
      assert Words(vs)[..WORD] == Little(WORD, vs[0]);
    } else {
      WordsAt(vs[1..], p - 1);
      HasRight(Little(WORD, vs[0]), Words(vs[1..]), WORD * (p - 1), Little(WORD, vs[p]));
    }
  }

  /** Where bucket b begins among the buckets' bytes: after codeBytes + 8 bytes for each earlier entry. */
  function Offset(codeBytes: nat, buckets: seq<Bucket>, b: nat): nat
    requires b <= |buckets|
  {
    if b == 0 then 0 else |buckets[0].ids| * (codeBytes + WORD) + Offset(codeBytes, buckets[1..], b - 1)
  }

  lemma BucketSize(codeBytes: nat, b: Bucket)
    requires BucketOk(codeBytes, b)
    ensures BucketBytes(b) == b.codes + Words(b.ids) && |BucketBytes(b)| == |b.ids| * (codeBytes + WORD)
  {
    WordsSize(b.ids);
    assert |b.ids| * (codeBytes + WORD) == |b.ids| * codeBytes + |b.ids| * WORD;
  }

  /** Pieces one after the other, and where piece b begins. */
  function Joined(pieces: seq<ByteString>): ByteString {
    if pieces == [] then [] else pieces[0] + Joined(pieces[1..])
  }

  function Start(pieces: seq<ByteString>, b: nat): nat
    requires b <= |pieces|
  {
    if b == 0 then 0 else |pieces[0]| + Start(pieces[1..], b - 1)
  }

  lemma {:induction false} InPiece(pieces: seq<ByteString>, b: nat, at: nat, part: ByteString)
    requires b < |pieces| && HasAt(pieces[b], at, part)
    ensures HasAt(Joined(pieces), Start(pieces, b) + at, part)
    decreases b
  {
    if b == 0 {
      HasLeft(pieces[0], Joined(pieces[1..]), at, part);
    } else {
      InPiece(pieces[1..], b - 1, at, part);
      HasRight(pieces[0], Joined(pieces[1..]), Start(pieces[1..], b - 1) + at, part);
    }
  }

  function Pieces(buckets: seq<Bucket>): seq<ByteString> {
    seq(|buckets|, i requires 0 <= i < |buckets| => BucketBytes(buckets[i]))
  }

  lemma {:induction false} AllIsJoined(buckets: seq<Bucket>)
    ensures AllBytes(buckets) == Joined(Pieces(buckets))
  {
    if buckets != [] {
      AllIsJoined(buckets[1..]);
      assert Pieces(buckets)[1..] == Pieces(buckets[1..]);
    }
  }

  lemma {:induction false} OffsetIsStart(codeBytes: nat, buckets: seq<Bucket>, b: nat)
    requires BucketsOk(codeBytes, buckets) && b <= |buckets|
    ensures Offset(codeBytes, buckets, b) == Start(Pieces(buckets), b)
    decreases b
  {
    if b > 0 {
      BucketSize(codeBytes, buckets[0]);
      OffsetIsStart(codeBytes, buckets[1..], b - 1);
      assert Pieces(buckets)[1..] == Pieces(buckets[1..]);
    }
  }

  lemma InBucket(codeBytes: nat, buckets: seq<Bucket>, b: nat, bytes: ByteString, at: nat, part: ByteString)
    requires BucketsOk(codeBytes, buckets) && b < |buckets|
    requires bytes == BucketBytes(buckets[b]) && HasAt(bytes, at, part)
    ensures HasAt(AllBytes(buckets), Offset(codeBytes, buckets, b) + at, part)
  {
    AllIsJoined(buckets);
    OffsetIsStart(codeBytes, buckets, b);
    InPiece(Pieces(buckets), b, at, part);
  }

  lemma FourCodes()
    ensures Little(4, ILAR) == [0x69, 0x6c, 0x61, 0x72] && Little(4, FULL) == [0x66, 0x75, 0x6c, 0x6c]
  {
    assert Little(1, 0x72) == [0x72] && Little(2, 0x7261) == [0x61, 0x72] && Little(3, 0x72616c) == [0x6c, 0x61, 0x72];
    assert Little(1, 0x6c) == [0x6c] && Little(2, 0x6c6c) == [0x6c, 0x6c] && Little(3, 0x6c6c75) == [0x75, 0x6c, 0x6c];
  }

  /** The first 32 bytes: "ilar", the number of buckets, the code size, "full" and the number of sizes. */
  lemma HeadLayout(codeBytes: nat, buckets: seq<Bucket>)
    ensures var file, n := Encoded(codeBytes, buckets), |buckets|;
            && |file| >= 32 && file[..4] == [0x69, 0x6c, 0x61, 0x72] && file[4..12] == Little(WORD, n)
            && file[12..20] == Little(WORD, codeBytes) && file[20..24] == [0x66, 0x75, 0x6c, 0x6c]
            && file[24..32] == Little(WORD, n)
  {
    FourCodes();
    var n, rest := |buckets|, Words(Sizes(buckets)) + AllBytes(buckets);
    FiveParts(Encoded(codeBytes, buckets), Little(4, ILAR), Little(WORD, n), Little(WORD, codeBytes), Little(4, FULL),
              Little(WORD, n), rest);
  }

  lemma FiveParts(file: ByteString, a: ByteString, b: ByteString, c: ByteString, d: ByteString, e: ByteString,
                  rest: ByteString)
    requires file == a + b + c + d + (e + rest) && |a| == |d| == 4 && |b| == |c| == |e| == 8
    ensures |file| >= 32 && file[..4] == a && file[4..12] == b && file[12..20] == c && file[20..24] == d
    ensures file[24..32] == e
  {
  }

  /** A part of the sizes, or of the buckets' bytes behind them, found in the whole file. */
  lemma BehindHead(file: ByteString, head: ByteString, count: ByteString, sizes: ByteString, all: ByteString, at: nat,
                   part: ByteString, pos: nat)
    requires file == head + (count + (sizes + all)) && |head| + |count| == 32
    requires || (HasAt(sizes, at, part) && pos == 32 + at)
             || (HasAt(all, at, part) && pos == 32 + |sizes| + at)
    ensures HasAt(file, pos, part)
  {
    if HasAt(sizes, at, part) && pos == 32 + at {
      HasLeft(sizes, all, at, part);
      HasRight(count, sizes + all, at, part);
      HasRight(head, count + (sizes + all), |count| + at, part);
    } else {
      HasRight(sizes, all, at, part);
      HasRight(count, sizes + all, |sizes| + at, part);
      HasRight(head, count + (sizes + all), |count| + |sizes| + at, part);
    }
  }

  /** Behind the head come the sizes of all buckets. */
  lemma SizeIsAt(codeBytes: nat, buckets: seq<Bucket>, b: nat)
    requires b < |buckets|
    ensures HasAt(Encoded(codeBytes, buckets), 32 + WORD * b, Little(WORD, |buckets[b].ids|))
  {
    var head, count, sizes := Header(|buckets|, codeBytes), Little(WORD, |buckets|), Words(Sizes(buckets));
    WordsAt(Sizes(buckets), b);
    BehindHead(Encoded(codeBytes, buckets), head, count, sizes, AllBytes(buckets), WORD * b,
               Little(WORD, |buckets[b].ids|), 32 + WORD * b);
  }

  /** Where bucket b begins in the file. */
  function BucketStart(codeBytes: nat, buckets: seq<Bucket>, b: nat): nat
    requires b <= |buckets|
  {
    32 + WORD * |buckets| + Offset(codeBytes, buckets, b)
  }

  lemma InFile(codeBytes: nat, buckets: seq<Bucket>, b: nat, bytes: ByteString, at: nat, part: ByteString, pos: nat)
    requires BucketsOk(codeBytes, buckets) && b < |buckets|
    requires bytes == BucketBytes(buckets[b]) && HasAt(bytes, at, part)
    requires pos == BucketStart(codeBytes, buckets, b) + at
    ensures HasAt(Encoded(codeBytes, buckets), pos, part)
  {
    var head, count, sizes := Header(|buckets|, codeBytes), Little(WORD, |buckets|), Words(Sizes(buckets));
    WordsSize(Sizes(buckets));
    InBucket(codeBytes, buckets, b, bytes, at, part);
    BehindHead(Encoded(codeBytes, buckets), head, count, sizes, AllBytes(buckets),
               Offset(codeBytes, buckets, b) + at, part, pos);
  }

  /** Then for each bucket the codes of all its entries. */
  lemma CodesAreAt(codeBytes: nat, buckets: seq<Bucket>, b: nat)
    requires BucketsOk(codeBytes, buckets) && b < |buckets|
    ensures HasAt(Encoded(codeBytes, buckets), BucketStart(codeBytes, buckets, b), buckets[b].codes)
  {
    var codes, ids := buckets[b].codes, Words(buckets[b].ids);
    BucketSize(codeBytes, buckets[b]);
    assert HasAt(codes, 0, codes);
    HasLeft(codes, ids, 0, codes);
    InFile(codeBytes, buckets, b, codes + ids, 0, codes, BucketStart(codeBytes, buckets, b));
  }

  /** And behind a bucket's codes its ids, in the order of the entries. */
  lemma IdIsAt(codeBytes: nat, buckets: seq<Bucket>, b: nat, p: nat)
    requires BucketsOk(codeBytes, buckets) && b < |buckets| && p < |buckets[b].ids|
    ensures HasAt(Encoded(codeBytes, buckets), BucketStart(codeBytes, buckets, b) + |buckets[b].codes| + WORD * p,
                  Little(WORD, buckets[b].ids[p]))
  {
    var codes, ids := buckets[b].codes, buckets[b].ids;
    BucketSize(codeBytes, buckets[b]);
    WordsAt(ids, p);
    HasRight(codes, Words(ids), WORD * p, Little(WORD, ids[p]));
    InFile(codeBytes, buckets, b, codes + Words(ids), |codes| + WORD * p, Little(WORD, ids[p]),
           BucketStart(codeBytes, buckets, b) + |codes| + WORD * p);
  }
}
