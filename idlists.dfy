/** Properties of lists of identifiers used throughout the model. */
module IdLists {

  predicate NoDup(xs: seq<int>)
  {
    forall k, m :: 0 <= k < m < |xs| ==> xs[k] != xs[m]
  }

  predicate Increasing(xs: seq<int>)
  {
    forall k, m :: 0 <= k < m < |xs| ==> xs[k] < xs[m]
  }

  lemma NoDupAppend(xs: seq<int>, ys: seq<int>)
    requires NoDup(xs) && NoDup(ys)
    requires forall y :: y in ys ==> y !in xs
    ensures NoDup(xs + ys)
  {
    forall k, m | 0 <= k < m < |xs + ys| ensures (xs + ys)[k] != (xs + ys)[m] {
      if k < |xs| && m >= |xs| {
        assert (xs + ys)[m] in ys;
      }
    }
  }

  /** Some member of a non-empty set. */
  lemma Pick(s: set<int>) returns (x: int)
    requires s != {}
    ensures x in s
  {
    if forall y :: y !in s {
      assert false;
    }
    x :| x in s;
  }

  /** The members of a list, as a set: Python's set(xs). */
  function Elems(s: seq<int>): set<int>
  {
    set x | x in s
  }

  /** Python's list(range(1, n + 1)): the activity identifiers 1..n. */
  function AllActivities(n: nat): (s: seq<int>)
    ensures |s| == n && forall i :: 0 <= i < n ==> s[i] == i + 1
  {
    seq(n, i => i + 1)
  }

  lemma {:induction false} NoDupSetSize(xs: seq<int>)
    requires NoDup(xs)
    ensures |Elems(xs)| == |xs|
  {
    if xs != [] {
      var t := xs[..|xs| - 1];
      assert NoDup(t);
      NoDupSetSize(t);
      assert Elems(xs) == Elems(t) + {xs[|xs| - 1]};
      assert xs[|xs| - 1] !in Elems(t);
    }
  }

  /** In a duplicate-free list every member occurs once. */
  lemma {:induction false} NoDupMultiset(xs: seq<int>, x: int)
    requires NoDup(xs)
    ensures multiset(xs)[x] == if x in xs then 1 else 0
  {
    if xs != [] {
      assert xs == [xs[0]] + xs[1..];
      assert NoDup(xs[1..]);
      NoDupMultiset(xs[1..], x);
      if x == xs[0] {
        assert x !in xs[1..];
      }
    }
  }

  /** Two duplicate-free lists with the same members are permutations of
      each other. */
  lemma SameElemsPermutation(xs: seq<int>, ys: seq<int>)
    requires NoDup(xs) && NoDup(ys) && Elems(xs) == Elems(ys)
    ensures multiset(xs) == multiset(ys)
  {
    forall x ensures multiset(xs)[x] == multiset(ys)[x] {
      NoDupMultiset(xs, x);
      NoDupMultiset(ys, x);
      assert x in xs <==> x in Elems(xs);
      assert x in ys <==> x in Elems(ys);
    }
  }

  lemma PermutationElems(xs: seq<int>, ys: seq<int>)
    requires multiset(xs) == multiset(ys)
    ensures Elems(xs) == Elems(ys)
  {
    forall x | x in Elems(xs) ensures x in Elems(ys) {
      assert x in multiset(xs);
    }
    forall x | x in Elems(ys) ensures x in Elems(xs) {
      assert x in multiset(ys);
    }
  }
}
