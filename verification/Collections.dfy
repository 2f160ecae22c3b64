// Finite collections: iteration in an unspecified order, and the finite sums
// the conservation arguments are about.
module Collections {
  // One element of a set, as the iteration of a Go map yields it.
  method Pick<T(==)>(s: set<T>) returns (x: T)
    requires s != {}
    ensures x in s
  {
    x :| x in s;
  }

  ghost predicate Distinct<T>(xs: seq<T>) {
    forall i, j :: 0 <= i < j < |xs| ==> xs[i] != xs[j]
  }

  function LastOf<T>(s: seq<T>, n: nat): seq<T> {
    if |s| <= n then s else s[|s| - n..]
  }

  function Sum<T>(xs: seq<T>, f: T -> nat): nat {
    if |xs| == 0 then 0 else Sum(xs[..|xs| - 1], f) + f(xs[|xs| - 1])
  }

  lemma {:induction false} SumAppend<T>(xs: seq<T>, x: T, f: T -> nat)
    ensures Sum(xs + [x], f) == Sum(xs, f) + f(x)
  {
    assert (xs + [x])[..|xs|] == xs;
  }

  lemma {:induction false} SumEqual<T>(xs: seq<T>, f: T -> nat, g: T -> nat)
    requires forall x :: x in xs ==> f(x) == g(x)
    ensures Sum(xs, f) == Sum(xs, g)
  {
    if |xs| > 0 {
      SumEqual(xs[..|xs| - 1], f, g);
    }
  }

  lemma {:induction false} SumSplit<T>(xs: seq<T>, f: T -> nat, g: T -> nat, h: T -> nat)
    requires forall x :: x in xs ==> h(x) == f(x) + g(x)
    ensures Sum(xs, h) == Sum(xs, f) + Sum(xs, g)
  {
    if |xs| > 0 {
      SumSplit(xs[..|xs| - 1], f, g, h);
    }
  }

  lemma {:induction false} SumZero<T>(xs: seq<T>, f: T -> nat)
    requires forall x :: x in xs ==> f(x) == 0
    ensures Sum(xs, f) == 0
  {
    if |xs| > 0 {
      SumZero(xs[..|xs| - 1], f);
    }
  }

  // A sum whose terms vanish away from one element is that element's term.
  lemma {:induction false} SumSingle<T>(xs: seq<T>, f: T -> nat, at: T)
    requires Distinct(xs) && at in xs
    requires forall x :: x in xs && x != at ==> f(x) == 0
    ensures Sum(xs, f) == f(at)
  {
    var front := xs[..|xs| - 1];
    if xs[|xs| - 1] == at {
      SumZero(front, f);
    } else {
      SumSingle(front, f, at);
    }
  }

  function RowTerm<S, T>(g: (S, T) -> nat, x: S): T -> nat {
    y => g(x, y)
  }

  function ColumnTerm<S, T>(g: (S, T) -> nat, y: T): S -> nat {
    x => g(x, y)
  }

  function RowSum<S, T>(ys: seq<T>, g: (S, T) -> nat): S -> nat {
    x => Sum(ys, RowTerm(g, x))
  }

  function ColumnSum<S, T>(xs: seq<S>, g: (S, T) -> nat): T -> nat {
    y => Sum(xs, ColumnTerm(g, y))
  }

  // Summing a table by rows or by columns gives the same total.
  lemma {:induction false} SumExchange<S, T>(xs: seq<S>, ys: seq<T>, g: (S, T) -> nat)
    ensures Sum(xs, RowSum(ys, g)) == Sum(ys, ColumnSum(xs, g))
  {
    if |xs| == 0 {
      SumZero(ys, ColumnSum(xs, g));
    } else {
      var front, last := xs[..|xs| - 1], xs[|xs| - 1];
      SumExchange(front, ys, g);
      SumSplit(ys, ColumnSum(front, g), RowTerm(g, last), ColumnSum(xs, g));
    }
  }

  function Keyed<K(==), T>(key: T -> K, term: T -> nat, k: K): T -> nat {
    x => if key(x) == k then term(x) else 0
  }

  function KeyedSum<K(==), T>(xs: seq<T>, key: T -> K, term: T -> nat): K -> nat {
    k => Sum(xs, Keyed(key, term, k))
  }

  function KeyedTable<K(==), T>(key: T -> K, term: T -> nat): (K, T) -> nat {
    (k, x) => if key(x) == k then term(x) else 0
  }

  // A sum regrouped by a key, when ks lists every key once.
  lemma {:induction false} SumByKey<K, T>(xs: seq<T>, ks: seq<K>, key: T -> K, term: T -> nat)
    requires Distinct(ks) && forall x :: x in xs ==> key(x) in ks
    ensures Sum(xs, term) == Sum(ks, KeyedSum(xs, key, term))
  {
    var g := KeyedTable(key, term);
    SumExchange(ks, xs, g);
    forall x | x in xs
      ensures ColumnSum(ks, g)(x) == term(x)
    {
      SumSingle(ks, ColumnTerm(g, x), key(x));
    }
    SumEqual(xs, ColumnSum(ks, g), term);
    forall k | k in ks
      ensures RowSum(xs, g)(k) == KeyedSum(xs, key, term)(k)
    {
      SumEqual(xs, RowTerm(g, k), Keyed(key, term, k));
    }
    SumEqual(ks, RowSum(xs, g), KeyedSum(xs, key, term));
  }

  lemma {:induction false} TermAtMostSum<T>(xs: seq<T>, f: T -> nat, x: T)
    requires x in xs
    ensures f(x) <= Sum(xs, f)
  {
    if x != xs[|xs| - 1] {
      TermAtMostSum(xs[..|xs| - 1], f, x);
    }
  }
}
