/**
 * What a scalar filter means on a numeric field: the predicate on the value, the
 * answer an index gives from its postings, and the answer a table scan gives.
 */
module ScalarQuery {
  import opened KeyLayout

  datatype Query =
    | Equal(value: int)
    | NotEqual(value: int)
    | In(values: seq<int>)
    | NotIn(values: seq<int>)
    | Range(lower: int, lowerInclusive: bool, upper: int, upperInclusive: bool)
    | LessThan(value: int)
    | LessEqual(value: int)
    | GreaterThan(value: int)
    | GreaterEqual(value: int)

  predicate AboveLower(lower: int, inclusive: bool, v: int) {
    lower < v || (inclusive && v == lower)
  }

  predicate BelowUpper(upper: int, inclusive: bool, v: int) {
    v < upper || (inclusive && v == upper)
  }

  predicate Satisfies(q: Query, v: int) {
    match q
    case Equal(x) => v == x
    case NotEqual(x) => v != x
    case In(xs) => v in xs
    case NotIn(xs) => v !in xs
    case Range(lo, loInc, hi, hiInc) => AboveLower(lo, loInc, v) && BelowUpper(hi, hiInc, v)
    case LessThan(x) => v < x
    case LessEqual(x) => v <= x
    case GreaterThan(x) => v > x
    case GreaterEqual(x) => v >= x
  }

  /** (value, docid) pairs an index holds for one field. */
  type Postings = set<(int, nat)>

  function Select(ps: Postings, q: Query): set<nat> {
    set p | p in ps && Satisfies(q, p.0) :: p.1
  }

  /** AddRange(0, size). */
  function UpTo(size: nat): (r: set<nat>)
    ensures forall d: nat :: d in r <==> d < size
  {
    if size == 0 then {} else UpTo(size - 1) + {size - 1}
  }

  /**
   * The shape of every index answer: positive queries union postings, the two
   * negative ones subtract from [0, storage size).
   */
  function IndexAnswer(ps: Postings, size: nat, q: Query): set<nat> {
    match q
    case NotEqual(x) => UpTo(size) - Select(ps, Equal(x))
    case NotIn(xs) => UpTo(size) - Select(ps, In(xs))
    case _ => Select(ps, q)
  }

  /** A scan of the column: what the answer must be for docids that are not deleted. */
  function TableScan(column: map<nat, int>, deleted: set<nat>, q: Query): set<nat> {
    set d | d in column && d !in deleted && Satisfies(q, column[d])
  }

  /**
   * The postings agree with the column on every docid that is not deleted. Deleted
   * docids may linger in them.
   */
  ghost predicate ExactOnLive(ps: Postings, column: map<nat, int>, deleted: set<nat>) {
    && (forall d :: d in column && d !in deleted ==> (column[d], d) in ps)
    && (forall p :: p in ps && p.1 !in deleted ==> p.1 in column && column[p.1] == p.0)
  }

  /** An index exact on the live docids answers every query like a table scan. */
  lemma AnswerIsTableScan(ps: Postings, column: map<nat, int>, deleted: set<nat>, size: nat, q: Query)
    requires ExactOnLive(ps, column, deleted)
    requires column.Keys - deleted == UpTo(size) - deleted
    ensures IndexAnswer(ps, size, q) - deleted == TableScan(column, deleted, q)
  {
    var got, want := IndexAnswer(ps, size, q) - deleted, TableScan(column, deleted, q);
    forall d | d in want ensures d in got {
      assert (column[d], d) in ps && d in column.Keys - deleted;
    }
    forall d | d in got ensures d in want {
      if q.NotEqual? || q.NotIn? {
        assert d in column.Keys - deleted;
        assert (column[d], d) in ps;
      } else {
        var p :| p in ps && Satisfies(q, p.0) && p.1 == d;
      }
    }
  }
}
