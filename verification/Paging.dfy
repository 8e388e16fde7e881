/**
 * Offset and limit on index answers. A scan skips and counts keys as it meets them; a finished
 * bitmap is cut in docid order.
 */
module Paging {

  /** A scan in progress: docids found so far and offset still to skip. */
  datatype Page = Page(found: set<nat>, skip: int)

  /** What one scanned key does to the page. */
  function Visit(p: Page, docid: nat, limit: int): Page {
    if p.skip > 0 then p.(skip := p.skip - 1)
    else if limit > 0 && |p.found| >= limit then p
    else p.(found := p.found + {docid})
  }

  function VisitAll(p: Page, docids: seq<nat>, limit: int): Page
    decreases docids
  {
    if docids == [] then p else VisitAll(Visit(p, docids[0], limit), docids[1..], limit)
  }

  predicate Full(p: Page, limit: int) {
    p.skip <= 0 && limit > 0 && |p.found| >= limit
  }

  lemma {:induction false} FullStays(p: Page, docids: seq<nat>, limit: int)
    requires Full(p, limit)
    ensures VisitAll(p, docids, limit) == p
  {
    if docids != [] { FullStays(p, docids[1..], limit); }
  }

  lemma {:induction false} VisitAllConcat(p: Page, a: seq<nat>, b: seq<nat>, limit: int)
    ensures VisitAll(p, a + b, limit) == VisitAll(VisitAll(p, a, limit), b, limit)
    decreases a
  {
    if a == [] {
      assert a + b == b;
    } else {
      assert (a + b)[1..] == a[1..] + b;
      VisitAllConcat(Visit(p, a[0], limit), a[1..], b, limit);
    }
  }

  lemma {:induction false} VisitAllNoPaging(p: Page, docids: seq<nat>)
    requires p.skip == 0
    ensures VisitAll(p, docids, 0) == Page(p.found + (set d | d in docids), 0)
    decreases docids
  {
    if docids != [] {
      VisitAllNoPaging(Visit(p, docids[0], 0), docids[1..]);
      assert forall d :: d in docids <==> d == docids[0] || d in docids[1..];
    }
  }

  lemma {:induction false} VisitAllSkips(p: Page, docids: seq<nat>, limit: int)
    requires 0 <= p.skip <= |docids|
    ensures VisitAll(p, docids, limit) == VisitAll(p.(skip := 0), docids[p.skip..], limit)
    decreases docids
  {
    if p.skip > 0 {
      VisitAllSkips(Visit(p, docids[0], limit), docids[1..], limit);
      assert docids[1..][p.skip - 1..] == docids[p.skip..];
    } else {
      assert docids[0..] == docids;
    }
  }

  lemma {:induction false} VisitAllTakes(p: Page, docids: seq<nat>, limit: nat)
    requires p.skip == 0 && 0 < limit
    requires |p.found| <= limit
    requires forall i, j :: 0 <= i < j < |docids| ==> docids[i] != docids[j]
    requires forall i :: 0 <= i < |docids| ==> docids[i] !in p.found
    ensures VisitAll(p, docids, limit).found == p.found + Elements(docids, limit - |p.found|)
    decreases docids
  {
    if docids != [] && |p.found| < limit {
      assert forall i :: 0 <= i < |docids[1..]| ==> docids[1..][i] == docids[i + 1];
      VisitAllTakes(Visit(p, docids[0], limit), docids[1..], limit);
    } else if docids != [] {
      FullStays(p, docids, limit);
    }
  }

  /** The first n docids, as a set. */
  function Elements(docids: seq<nat>, n: nat): set<nat> {
    if docids == [] || n == 0 then {} else {docids[0]} + Elements(docids[1..], n - 1)
  }

  lemma {:induction false} ElementsAreFirst(docids: seq<nat>, n: nat)
    ensures forall d :: d in Elements(docids, n) <==> d in docids[..if n < |docids| then n else |docids|]
  {
    if docids != [] && n > 0 {
      ElementsAreFirst(docids[1..], n - 1);
      var k := if n < |docids| then n else |docids|;
      assert docids[..k] == [docids[0]] + docids[1..][..k - 1];
    }
  }

  /** Over distinct docids, offset and limit cut out the slice a caller expects. */
  lemma PageIsSlice(docids: seq<nat>, offset: nat, limit: nat)
    requires offset <= |docids| && 0 < limit
    requires forall i, j :: 0 <= i < j < |docids| ==> docids[i] != docids[j]
    ensures VisitAll(Page({}, offset), docids, limit).found == Elements(docids[offset..], limit)
  {
    VisitAllSkips(Page({}, offset), docids, limit);
    var rest := docids[offset..];
    assert forall i :: 0 <= i < |rest| ==> rest[i] == docids[offset + i];
    VisitAllTakes(Page({}, 0), rest, limit);
  }

  // Cutting a finished bitmap.

  predicate Rising(docids: seq<nat>) {
    forall i, j :: 0 <= i < j < |docids| ==> docids[i] < docids[j]
  }

  predicate IsLeast(m: nat, s: set<nat>) {
    m in s && forall x :: x in s ==> m <= x
  }

  lemma {:induction false} LeastExists(s: set<nat>) returns (m: nat)
    requires s != {}
    ensures IsLeast(m, s)
  {
    var k :| k in s;
    var rest := s - {k};
    assert s == rest + {k};
    m := k;
    if rest != {} {
      var n := LeastExists(rest);
      m := if n < k then n else k;
    }
  }

  ghost function LeastDocid(s: set<nat>): (m: nat)
    requires s != {}
    ensures IsLeast(m, s)
  {
    assert exists m :: IsLeast(m, s) by { var m := LeastExists(s); }
    var m :| IsLeast(m, s);
    m
  }

  /** The bitmap's docids as its iterator meets them. */
  ghost function Docids(s: set<nat>): seq<nat> {
    if s == {} then [] else [LeastDocid(s)] + Docids(s - {LeastDocid(s)})
  }

  lemma {:induction false} DocidsAreThose(s: set<nat>, d: nat)
    ensures d in Docids(s) <==> d in s
  {
    if s != {} { DocidsAreThose(s - {LeastDocid(s)}, d); }
  }

  lemma RisingCons(m: nat, rest: seq<nat>)
    requires Rising(rest) && forall i :: 0 <= i < |rest| ==> m < rest[i]
    ensures Rising([m] + rest)
  {
  }

  lemma {:induction false} DocidsRise(s: set<nat>)
    ensures Rising(Docids(s))
  {
    if s != {} {
      var m, rest := LeastDocid(s), s - {LeastDocid(s)};
      DocidsRise(rest);
      forall i | 0 <= i < |Docids(rest)| ensures m < Docids(rest)[i] {
        DocidsAreThose(rest, Docids(rest)[i]);
      }
      RisingCons(m, Docids(rest));
    }
  }

  method Least(s: set<nat>) returns (m: nat)
    requires s != {}
    ensures m == LeastDocid(s)
  {
    m :| m in s;
    var rest := s - {m};
    while rest != {}
      invariant rest <= s && m in s && forall x :: x in s && x !in rest ==> m <= x
      decreases |rest|
    {
      var x :| x in rest;
      rest := rest - {x};
      m := if x < m then x else m;
    }
  }

  /** The slice of a bitmap that offset and limit ask for; 0 and 0 ask for all, a negative one for nothing. */
  ghost function PageOf(s: set<nat>, offset: int, limit: int): set<nat> {
    if offset < 0 || limit < 0 then {}
    else if offset == 0 == limit then s
    else if offset >= |Docids(s)| then {}
    else FirstOf(Docids(s)[offset..], limit)
  }

  function FirstOf(docids: seq<nat>, limit: nat): set<nat> {
    Elements(docids, if limit > 0 then limit else |docids|)
  }

  lemma {:induction false} DocidsSize(s: set<nat>)
    ensures |Docids(s)| == |s|
  {
    if s != {} { DocidsSize(s - {LeastDocid(s)}); }
  }

  /** The iterator after some steps: what is left of the bitmap is what is left of the list. */
  method Advance(s: set<nat>, n: nat) returns (rest: set<nat>)
    requires n <= |Docids(s)|
    ensures Docids(rest) == Docids(s)[n..]
  {
    rest := s;
    for i := 0 to n
      invariant Docids(rest) == Docids(s)[i..]
    {
      assert rest != {};
      var m := Least(rest);
      assert Docids(rest)[1..] == Docids(s)[i + 1..];
      rest := rest - {m};
    }
  }

  ghost function Lowest(s: set<nat>, n: nat): set<nat> {
    if s == {} || n == 0 then {} else {LeastDocid(s)} + Lowest(s - {LeastDocid(s)}, n - 1)
  }

  lemma {:induction false} LowestAreFirst(s: set<nat>, n: nat)
    ensures Lowest(s, n) == Elements(Docids(s), n)
    decreases n
  {
    if s != {} && n > 0 {
      LowestAreFirst(s - {LeastDocid(s)}, n - 1);
      assert Docids(s)[1..] == Docids(s - {LeastDocid(s)});
    }
  }

  method TakeLowest(s: set<nat>, n: nat) returns (r: set<nat>)
    ensures r == Lowest(s, n)
  {
    r := {};
    var rest, left := s, n;
    while rest != {} && left > 0
      invariant 0 <= left && r + Lowest(rest, left) == Lowest(s, n)
      decreases |rest|
    {
      var m := Least(rest);
      r := r + {m};
      rest := rest - {m};
      left := left - 1;
    }
  }

  /** ScalarIndexResult(bitmap, offset, limit). */
  method CutPage(s: set<nat>, offset: int, limit: int) returns (r: set<nat>)
    ensures r == PageOf(s, offset, limit)
  {
    if offset < 0 || limit < 0 {
      return {};
    }
    if offset == 0 && limit == 0 {
      return s;
    }
    DocidsSize(s);
    if offset >= |s| {
      return {};
    }
    var rest := Advance(s, offset);
    r := TakeLowest(rest, if limit > 0 then limit else |rest|);
    DocidsSize(rest);
    LowestAreFirst(rest, if limit > 0 then limit else |rest|);
  }
}
