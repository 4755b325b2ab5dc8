/** `Array.prototype.filter` and `.length` of its result, as used by `filterUsers` and
    `updateStats`, with the facts about them the front end relies on. */
module Seqs {

  /** `r` is an order-preserving subsequence of `s`. */
  predicate IsSubsequence<T(==)>(r: seq<T>, s: seq<T>)
    decreases |s|
  {
    r == [] ||
    (s != [] && ((r[0] == s[0] && IsSubsequence(r[1..], s[1..])) || IsSubsequence(r, s[1..])))
  }

  /** `xs.filter(p)`. */
  function Filter<T>(xs: seq<T>, p: T -> bool): (r: seq<T>)
    ensures |r| <= |xs|
    ensures forall i :: 0 <= i < |r| ==> p(r[i]) && r[i] in xs
  {
    if xs == [] then []
    else if p(xs[0]) then [xs[0]] + Filter(xs[1..], p)
    else Filter(xs[1..], p)
  }

  /** The filter keeps its elements in their original order. */
  lemma {:induction false} FilterIsSubsequence<T>(xs: seq<T>, p: T -> bool)
    ensures IsSubsequence(Filter(xs, p), xs)
  {
    if xs != [] {
      FilterIsSubsequence(xs[1..], p);
      var rest := Filter(xs[1..], p);
      if p(xs[0]) {
        assert Filter(xs, p)[1..] == rest;
      }
    }
  }

  /** Each value occurs in the result exactly as often as in the input when it passes,
      and never when it does not: nothing that passes is dropped, nothing else is kept. */
  lemma {:induction false} FilterMultiplicity<T>(xs: seq<T>, p: T -> bool, x: T)
    ensures multiset(Filter(xs, p))[x] == if p(x) then multiset(xs)[x] else 0
  {
    if xs != [] {
      FilterMultiplicity(xs[1..], p, x);
      assert xs == [xs[0]] + xs[1..];
      if p(xs[0]) {
        assert multiset(Filter(xs, p)) == multiset([xs[0]]) + multiset(Filter(xs[1..], p));
      }
    }
  }

  /** Every element that passes the predicate is kept. */
  lemma FilterKeepsPassing<T>(xs: seq<T>, p: T -> bool)
    ensures forall x :: x in xs && p(x) ==> x in Filter(xs, p)
  {
    forall x | x in xs && p(x) ensures x in Filter(xs, p) {
      FilterMultiplicity(xs, p, x);
    }
  }

  /** Filtering depends only on the predicate's values. */
  lemma {:induction false} FilterExtensional<T>(xs: seq<T>, p: T -> bool, q: T -> bool)
    requires forall x :: p(x) == q(x)
    ensures Filter(xs, p) == Filter(xs, q)
  {
    if xs != [] {
      FilterExtensional(xs[1..], p, q);
    }
  }

  /** A predicate that holds everywhere keeps the whole sequence. */
  lemma {:induction false} FilterAll<T>(xs: seq<T>, p: T -> bool)
    requires forall x :: p(x)
    ensures Filter(xs, p) == xs
  {
    if xs != [] {
      FilterAll(xs[1..], p);
    }
  }

  /** A predicate that holds nowhere keeps nothing. */
  lemma {:induction false} FilterNone<T>(xs: seq<T>, p: T -> bool)
    requires forall x :: !p(x)
    ensures Filter(xs, p) == []
  {
    if xs != [] {
      FilterNone(xs[1..], p);
    }
  }

  /** Filtering by `pq` equals filtering by `p` and then by `q` when `pq` is their conjunction. */
  lemma {:induction false} FilterConjunction<T>(xs: seq<T>, p: T -> bool, q: T -> bool, pq: T -> bool)
    requires forall x :: pq(x) == (p(x) && q(x))
    ensures Filter(xs, pq) == Filter(Filter(xs, p), q)
  {
    if xs != [] {
      FilterConjunction(xs[1..], p, q, pq);
    }
  }

  /** The order in which two filters are applied does not matter. */
  lemma FilterCommute<T>(xs: seq<T>, p: T -> bool, q: T -> bool)
    ensures Filter(Filter(xs, p), q) == Filter(Filter(xs, q), p)
  {
    var pq := x => p(x) && q(x);
    var qp := x => q(x) && p(x);
    FilterConjunction(xs, p, q, pq);
    FilterConjunction(xs, q, p, qp);
    FilterExtensional(xs, pq, qp);
  }

  /** Elements that pass and elements that fail together make up the whole sequence. */
  lemma {:induction false} FilterComplement<T>(xs: seq<T>, p: T -> bool, notP: T -> bool)
    requires forall x :: notP(x) == !p(x)
    ensures |Filter(xs, p)| + |Filter(xs, notP)| == |xs|
  {
    if xs != [] {
      FilterComplement(xs[1..], p, notP);
    }
  }

  /** Two predicates that never hold together count at most the whole sequence between them. */
  lemma {:induction false} FilterDisjoint<T>(xs: seq<T>, p: T -> bool, q: T -> bool)
    requires forall x :: !(p(x) && q(x))
    ensures |Filter(xs, p)| + |Filter(xs, q)| <= |xs|
  {
    if xs != [] {
      FilterDisjoint(xs[1..], p, q);
    }
  }
}
