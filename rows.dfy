/**
 * Counting and filtering over query results. A relation returned by the
 * database is a sequence of rows; `count(*)` over a WHERE clause is the
 * number of rows satisfying the clause.
 */
module Rows {

  /** The number of elements of `s` that satisfy `p` (SQL `count(*) ... WHERE p`). */
  function CountWhere<T>(s: seq<T>, p: T -> bool): (n: nat)
    ensures n <= |s|
    ensures n == 0 <==> forall x | x in s :: !p(x)
  {
    if s == [] then 0
    else (if p(s[0]) then 1 else 0) + CountWhere(s[1..], p)
  }

  /** The elements of `s` that satisfy `keep`, in their original order. */
  function Filter<T>(s: seq<T>, keep: T -> bool): (r: seq<T>)
    ensures |r| <= |s|
    ensures forall x | x in r :: x in s && keep(x)
    ensures forall x | x in s && keep(x) :: x in r
  {
    if s == [] then []
    else if keep(s[0]) then [s[0]] + Filter(s[1..], keep)
    else Filter(s[1..], keep)
  }

  /** A clause every row satisfies keeps the whole sequence. */
  lemma {:induction false} FilterKeepsAll<T>(s: seq<T>, keep: T -> bool)
    requires forall x | x in s :: keep(x)
    ensures Filter(s, keep) == s
  {
    if s != [] {
      FilterKeepsAll(s[1..], keep);
    }
  }

  /** Filtering keeps exactly the matching rows: as many as the clause counts. */
  lemma {:induction false} FilterLength<T>(s: seq<T>, keep: T -> bool)
    ensures |Filter(s, keep)| == CountWhere(s, keep)
  {
    if s != [] {
      FilterLength(s[1..], keep);
    }
  }

  /** Appending one row adds one to a count exactly when the row matches. */
  lemma {:induction false} CountAppend<T>(s: seq<T>, x: T, p: T -> bool)
    ensures CountWhere(s + [x], p) == CountWhere(s, p) + (if p(x) then 1 else 0)
  {
    if s != [] {
      assert (s + [x])[1..] == s[1..] + [x];
      CountAppend(s[1..], x, p);
    }
  }

  /** A stronger clause never matches more rows. */
  lemma {:induction false} CountMonotone<T>(s: seq<T>, p: T -> bool, q: T -> bool)
    requires forall x | x in s :: p(x) ==> q(x)
    ensures CountWhere(s, p) <= CountWhere(s, q)
  {
    if s != [] {
      CountMonotone(s[1..], p, q);
    }
  }

  /** Two clauses that agree on every row count the same rows. */
  lemma {:induction false} CountSame<T>(s: seq<T>, p: T -> bool, q: T -> bool)
    requires forall x | x in s :: p(x) == q(x)
    ensures CountWhere(s, p) == CountWhere(s, q)
  {
    if s != [] {
      CountSame(s[1..], p, q);
    }
  }

  /**
   * Two clauses that no row satisfies together: a clause `either` that
   * holds exactly where one of them does counts the sum of their counts.
   */
  lemma {:induction false} CountDisjointUnion<T>(s: seq<T>, p: T -> bool, q: T -> bool, either: T -> bool)
    requires forall x | x in s :: !(p(x) && q(x))
    requires forall x | x in s :: either(x) == (p(x) || q(x))
    ensures CountWhere(s, either) == CountWhere(s, p) + CountWhere(s, q)
  {
    if s != [] {
      CountDisjointUnion(s[1..], p, q, either);
    }
  }

  /** Removing rows that a clause never matches does not change its count. */
  lemma {:induction false} CountFilter<T>(s: seq<T>, p: T -> bool, keep: T -> bool)
    requires forall x | x in s :: p(x) ==> keep(x)
    ensures CountWhere(Filter(s, keep), p) == CountWhere(s, p)
  {
    if s != [] {
      CountFilter(s[1..], p, keep);
    }
  }
}
