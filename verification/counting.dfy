/** Counting the indices below a bound that satisfy a predicate: the source's `count++` loops. */
module Counting {

  /** Number of i in [0, n) with p(i). */
  function CountWhere(n: nat, p: int -> bool): (r: nat)
    ensures r <= n
    ensures n > 0 && !p(n - 1) ==> r < n
  {
    if n == 0 then 0 else CountWhere(n - 1, p) + (if p(n - 1) then 1 else 0)
  }

  /** The count reaches the bound exactly when every index qualifies. */
  lemma {:induction false} CountWhereFull(n: nat, p: int -> bool)
    ensures CountWhere(n, p) == n <==> forall i :: 0 <= i < n ==> p(i)
  {
    if n > 0 {
      CountWhereFull(n - 1, p);
      if CountWhere(n, p) == n {
        assert CountWhere(n - 1, p) == n - 1 && p(n - 1);
        forall i | 0 <= i < n ensures p(i) {
          if i < n - 1 {
            assert p(i);
          }
        }
      }
    }
  }

  /** Counting is extensional: predicates that agree below the bound give the same count. */
  lemma {:induction false} CountWhereSame(n: nat, p: int -> bool, q: int -> bool)
    requires forall i :: 0 <= i < n ==> p(i) == q(i)
    ensures CountWhere(n, p) == CountWhere(n, q)
  {
    if n > 0 {
      CountWhereSame(n - 1, p, q);
    }
  }

  /** Counting is monotone in the predicate. */
  lemma {:induction false} CountWhereMonotone(n: nat, p: int -> bool, q: int -> bool)
    requires forall i :: 0 <= i < n && p(i) ==> q(i)
    ensures CountWhere(n, p) <= CountWhere(n, q)
  {
    if n > 0 {
      CountWhereMonotone(n - 1, p, q);
    }
  }

  /** Counts of two predicates that never hold together add up to the count of either. */
  lemma {:induction false} CountWhereDisjoint(n: nat, p: int -> bool, q: int -> bool, both: int -> bool)
    requires forall i :: 0 <= i < n ==> !(p(i) && q(i)) && both(i) == (p(i) || q(i))
    ensures CountWhere(n, p) + CountWhere(n, q) == CountWhere(n, both)
  {
    if n > 0 {
      CountWhereDisjoint(n - 1, p, q, both);
    }
  }

  /** A subset is no larger, and a proper subset is strictly smaller. */
  lemma SubsetCardinality<T>(a: set<T>, b: set<T>)
    requires a <= b
    ensures |a| <= |b|
    ensures a != b ==> |a| < |b|
  {
    var d := b - a;
    assert b == a + d;
    assert a * d == {};
    if a != b {
      var x :| x in b && x !in a;
      assert x in d;
    }
  }
}
