/**
 * Byte strings as RocksDB compares them: bytewise lexicographic order, prefix
 * ranges, fixed-width big-endian integers.
 */
module Bytes {

  type Byte = x: int | 0 <= x < 256
  type ByteString = seq<Byte>

  /** The default BytewiseComparator of RocksDB, which is also std::string's operator<. */
  predicate Less(a: ByteString, b: ByteString) {
    if b == [] then false
    else if a == [] then true
    else if a[0] != b[0] then a[0] < b[0]
    else Less(a[1..], b[1..])
  }

  predicate AtMost(a: ByteString, b: ByteString) {
    !Less(b, a)
  }

  predicate StrictlySorted(ks: seq<ByteString>) {
    forall i, j :: 0 <= i < j < |ks| ==> Less(ks[i], ks[j])
  }

  lemma {:induction false} LessIrreflexive(a: ByteString)
    ensures !Less(a, a)
  {
    if a != [] { LessIrreflexive(a[1..]); }
  }

  lemma {:induction false} LessTotal(a: ByteString, b: ByteString)
    ensures Less(a, b) || a == b || Less(b, a)
  {
    if a != [] && b != [] && a[0] == b[0] {
      LessTotal(a[1..], b[1..]);
      assert a == [a[0]] + a[1..] && b == [b[0]] + b[1..];
    }
  }

  lemma {:induction false} LessAsymmetric(a: ByteString, b: ByteString)
    requires Less(a, b)
    ensures !Less(b, a) && a != b
  {
    if a != [] && a[0] == b[0] { LessAsymmetric(a[1..], b[1..]); }
  }

  lemma {:induction false} LessTransitive(a: ByteString, b: ByteString, c: ByteString)
    requires Less(a, b) && Less(b, c)
    ensures Less(a, c)
  {
    if a != [] && a[0] == b[0] && b[0] == c[0] { LessTransitive(a[1..], b[1..], c[1..]); }
  }

  lemma AtMostLess(a: ByteString, b: ByteString, c: ByteString)
    requires AtMost(a, b) && Less(b, c)
    ensures Less(a, c)
  {
    LessTotal(a, b);
    if a != b { LessTransitive(a, b, c); }
  }

  lemma AtMostTransitive(a: ByteString, b: ByteString, c: ByteString)
    requires AtMost(a, b) && AtMost(b, c)
    ensures AtMost(a, c)
  {
    if Less(c, a) { AtMostLess(b, c, a); }
  }

  /** A common prefix does not influence the order. */
  lemma {:induction false} LessCancel(p: ByteString, a: ByteString, b: ByteString)
    ensures Less(p + a, p + b) == Less(a, b)
  {
    if p == [] {
      assert p + a == a && p + b == b;
    } else {
      assert (p + a)[1..] == p[1..] + a && (p + b)[1..] == p[1..] + b;
      LessCancel(p[1..], a, b);
    }
  }

  /** Behind prefixes of one length, the prefixes decide, and then the rest. */
  lemma {:induction false} LessSplit(a: ByteString, x: ByteString, b: ByteString, y: ByteString)
    requires |a| == |b|
    ensures Less(a + x, b + y) <==> Less(a, b) || (a == b && Less(x, y))
  {
    if a == [] {
      assert a + x == x && b + y == y;
    } else {
      assert (a + x)[1..] == a[1..] + x && (b + y)[1..] == b[1..] + y;
      LessSplit(a[1..], x, b[1..], y);
      assert a == [a[0]] + a[1..] && b == [b[0]] + b[1..];
    }
  }

  lemma {:induction false} PrefixAtMost(p: ByteString, k: ByteString)
    requires p <= k
    ensures AtMost(p, k)
  {
    if p != [] { PrefixAtMost(p[1..], k[1..]); }
  }

  /** Truncation keeps the order weakly. */
  lemma {:induction false} TakeMonotone(a: ByteString, b: ByteString, n: nat)
    requires AtMost(a, b)
    ensures AtMost(Take(a, n), Take(b, n))
  {
    if n > 0 && a != [] && b != [] && a[0] == b[0] {
      TakeMonotone(a[1..], b[1..], n - 1);
      assert Take(a, n)[1..] == Take(a[1..], n - 1);
      assert Take(b, n)[1..] == Take(b[1..], n - 1);
    }
  }

  /** std::string::substr(0, n). */
  function Take(k: ByteString, n: nat): ByteString {
    if |k| <= n then k else k[..n]
  }

  /** Whatever lies between two extensions of a prefix is itself an extension of it. */
  lemma {:induction false} SandwichPrefix(p: ByteString, x: ByteString, y: ByteString, k: ByteString)
    requires AtMost(p + x, k) && AtMost(k, p + y)
    ensures p <= k
  {
    if p != [] {
      assert (p + x)[1..] == p[1..] + x && (p + y)[1..] == p[1..] + y;
      assert k != [] && k[0] == p[0];
      SandwichPrefix(p[1..], x, y, k[1..]);
      assert k == [k[0]] + k[1..];
    }
  }

  /**
   * AdvancePrefix on values: the last byte below 0xFF is incremented and the
   * bytes after it are cut; the empty string when every byte is 0xFF.
   */
  function Advanced(p: ByteString): ByteString {
    if p == [] then []
    else if Advanced(p[1..]) != [] then [p[0]] + Advanced(p[1..])
    else if p[0] < 255 then [p[0] + 1]
    else []
  }

  /** A key is in [p, AdvancePrefix(p)) exactly when it starts with p. */
  lemma {:induction false} PrefixRangeExact(p: ByteString, k: ByteString)
    ensures Advanced(p) != [] ==> ((AtMost(p, k) && Less(k, Advanced(p))) <==> p <= k)
    ensures Advanced(p) == [] ==> (AtMost(p, k) <==> p <= k)
  {
    if p == [] {
    } else if k == [] {
    } else {
      PrefixRangeExact(p[1..], k[1..]);
      assert p <= k <==> p[0] == k[0] && p[1..] <= k[1..];
      var rest := Advanced(p[1..]);
      if rest != [] {
        assert Advanced(p)[1..] == rest;
      }
    }
  }

  lemma {:induction false} AdvancedSnoc(q: ByteString, x: Byte)
    ensures Advanced(q + [x]) == if x < 255 then q + [x + 1] else Advanced(q)
  {
    if q != [] {
      assert (q + [x])[1..] == q[1..] + [x];
      AdvancedSnoc(q[1..], x);
      assert q == [q[0]] + q[1..];
    }
  }

  lemma AdvancedSomeByte(p: ByteString, i: nat)
    requires i < |p| && p[i] < 255
    ensures Advanced(p) != []
  {
    if i > 0 { AdvancedSomeByte(p[1..], i - 1); }
  }

  /** The loop of AdvancePrefix. */
  method AdvancePrefix(prefix: ByteString) returns (result: ByteString)
    ensures result == Advanced(prefix)
    ensures result != [] ==> forall k :: (AtMost(prefix, k) && Less(k, result)) <==> prefix <= k
    ensures result == [] <==> forall i :: 0 <= i < |prefix| ==> prefix[i] == 255
  {
    result := prefix;
    var i := |result| - 1;
    assert prefix[..i + 1] == prefix;
    while i >= 0
      invariant -1 <= i < |prefix|
      invariant result == prefix
      invariant Advanced(prefix) == Advanced(prefix[..i + 1])
      invariant forall j :: i < j < |prefix| ==> prefix[j] == 255
    {
      assert prefix[..i + 1] == prefix[..i] + [prefix[i]];
      AdvancedSnoc(prefix[..i], prefix[i]);
      if result[i] < 255 {
        result := result[i := result[i] + 1];
        result := result[..i + 1];
        assert result == prefix[..i] + [prefix[i] + 1];
        forall k ensures (AtMost(prefix, k) && Less(k, result)) <==> prefix <= k {
          PrefixRangeExact(prefix, k);
        }
        return;
      }
      i := i - 1;
    }
    result := [];
  }

  function Pow256(n: nat): nat
    ensures Pow256(n) > 0
  {
    if n == 0 then 1 else 256 * Pow256(n - 1)
  }

  /** htobe32 / htobe64: the n-byte big-endian form of x. */
  function BigEndian(n: nat, x: nat): (b: ByteString)
    requires x < Pow256(n)
    ensures |b| == n
  {
    if n == 0 then [] else BigEndian(n - 1, x / 256) + [x % 256]
  }

  /** be32toh / be64toh. */
  function FromBigEndian(b: ByteString): nat {
    if b == [] then 0 else 256 * FromBigEndian(b[..|b| - 1]) + b[|b| - 1]
  }

  lemma {:induction false} BigEndianRoundTrip(n: nat, x: nat)
    requires x < Pow256(n)
    ensures FromBigEndian(BigEndian(n, x)) == x
  {
    if n > 0 {
      BigEndianRoundTrip(n - 1, x / 256);
      var b := BigEndian(n, x);
      assert b[..|b| - 1] == BigEndian(n - 1, x / 256);
    }
  }

  lemma {:induction false} LessSnoc(a: ByteString, b: ByteString, x: Byte, y: Byte)
    requires |a| == |b|
    ensures Less(a + [x], b + [y]) <==> Less(a, b) || (a == b && x < y)
  {
    if a == [] {
    } else {
      assert (a + [x])[1..] == a[1..] + [x] && (b + [y])[1..] == b[1..] + [y];
      LessSnoc(a[1..], b[1..], x, y);
      assert a == b <==> a[0] == b[0] && a[1..] == b[1..];
    }
  }

  /** Fixed-width big-endian order is numeric order. */
  lemma {:induction false} BigEndianOrder(n: nat, x: nat, y: nat)
    requires x < Pow256(n) && y < Pow256(n)
    ensures Less(BigEndian(n, x), BigEndian(n, y)) <==> x < y
    ensures BigEndian(n, x) == BigEndian(n, y) <==> x == y
  {
    if n > 0 {
      BigEndianOrder(n - 1, x / 256, y / 256);
      LessSnoc(BigEndian(n - 1, x / 256), BigEndian(n - 1, y / 256), x % 256, y % 256);
      var a, b := BigEndian(n, x), BigEndian(n, y);
      assert a[..n - 1] == BigEndian(n - 1, x / 256) && b[..n - 1] == BigEndian(n - 1, y / 256);
      assert a[n - 1] == x % 256 && b[n - 1] == y % 256;
    }
  }

  lemma {:induction false} BigEndianExtremes(n: nat)
    ensures BigEndian(n, 0) == seq(n, _ => 0 as Byte)
    ensures BigEndian(n, Pow256(n) - 1) == seq(n, _ => 255 as Byte)
  {
    if n > 0 {
      BigEndianExtremes(n - 1);
      var top: nat := Pow256(n) - 1;
      assert top == 256 * (Pow256(n - 1) - 1) + 255;
      assert top / 256 == Pow256(n - 1) - 1 && top % 256 == 255;
    }
  }

  /** The bytes of part stand in s from this position on. */
  predicate HasAt(s: ByteString, at: nat, part: ByteString) {
    at + |part| <= |s| && s[at..at + |part|] == part
  }

  lemma HasLeft(a: ByteString, b: ByteString, at: nat, part: ByteString)
    requires HasAt(a, at, part)
    ensures HasAt(a + b, at, part)
  {
    assert (a + b)[at..at + |part|] == a[at..at + |part|];
  }

  lemma HasRight(a: ByteString, b: ByteString, at: nat, part: ByteString)
    requires HasAt(b, at, part)
    ensures HasAt(a + b, |a| + at, part)
  {
    assert (a + b)[|a| + at..|a| + at + |part|] == b[at..at + |part|];
  }
}
