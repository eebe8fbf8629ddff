/** Python's stable `sorted(..., key=..., reverse=...)` / `list.sort(key=...)`
    over activity identifiers, with sort keys that are integers, rationals
    (a duration divided by a count) or infinities. */
module StableSort {
  import opened ExtendedInt

  type Pos = x: int | x > 0 witness 1

  /** A sort key: -inf, the rational num/den, or +inf. */
  datatype Key = Low | Ratio(num: int, den: Pos) | High

  function IntKey(v: int): Key
  {
    Ratio(v, 1)
  }

  function ExtKey(e: Ext): Key
  {
    match e
    case NegInf => Low
    case Fin(v) => Ratio(v, 1)
    case PosInf => High
  }

  /** Python's n / d for an integer d, with float('inf') when d is zero. */
  function Quotient(n: int, d: int): Key
  {
    if d == 0 then High else if d > 0 then Ratio(n, d) else Ratio(-n, -d)
  }

  predicate KeyLe(a: Key, b: Key)
  {
    match (a, b)
    case (Low, _) => true
    case (_, High) => true
    case (Ratio(n1, d1), Ratio(n2, d2)) => n1 * d2 <= n2 * d1
    case _ => false
  }

  lemma ExtKeyMonotone(a: Ext, b: Ext)
    ensures KeyLe(ExtKey(a), ExtKey(b)) <==> Le(a, b)
  {
  }

  lemma KeyLeTotal(a: Key, b: Key)
    ensures KeyLe(a, b) || KeyLe(b, a)
  {
  }

  lemma MulMono(x: int, y: int, c: int)
    requires x <= y && c > 0
    ensures x * c <= y * c
  {
  }

  lemma MulCancel(x: int, y: int, c: int)
    requires x * c <= y * c && c > 0
    ensures x <= y
  {
    if x > y {
      MulMono(y + 1, x, c);
    }
  }

  lemma KeyLeTrans(a: Key, b: Key, c: Key)
    requires KeyLe(a, b) && KeyLe(b, c)
    ensures KeyLe(a, c)
  {
    if a.Ratio? && b.Ratio? && c.Ratio? {
      var n1, d1, n2, d2, n3, d3 := a.num, a.den, b.num, b.den, c.num, c.den;
      MulMono(n1 * d2, n2 * d1, d3);
      MulMono(n2 * d3, n3 * d2, d1);
      assert n1 * d2 * d3 == (n1 * d3) * d2;
      assert n2 * d1 * d3 == n2 * d3 * d1;
      assert n3 * d2 * d1 == (n3 * d1) * d2;
      MulCancel(n1 * d3, n3 * d1, d2);
    }
  }

  /** An identifier paired with its sort key. */
  datatype Keyed = Keyed(key: Key, id: int)

  /** `a` may be placed before `b`: ascending, or descending for reverse=True. */
  predicate Before(a: Keyed, b: Keyed, desc: bool)
  {
    if desc then KeyLe(b.key, a.key) else KeyLe(a.key, b.key)
  }

  function Ids(s: seq<Keyed>): seq<int>
  {
    if s == [] then [] else [s[0].id] + Ids(s[1..])
  }

  lemma {:induction false} IdsAt(s: seq<Keyed>)
    ensures |Ids(s)| == |s|
    ensures forall i :: 0 <= i < |s| ==> Ids(s)[i] == s[i].id
  {
    if s != [] {
      IdsAt(s[1..]);
    }
  }

  /** Places `x` in front of the first element it may precede. */
  function Insert(x: Keyed, ys: seq<Keyed>, desc: bool): seq<Keyed>
  {
    if ys == [] then [x]
    else if Before(x, ys[0], desc) then [x] + ys
    else [ys[0]] + Insert(x, ys[1..], desc)
  }

  /** Stable insertion sort: what Python's Timsort returns for the same keys. */
  function Sort(xs: seq<Keyed>, desc: bool): seq<Keyed>
  {
    if xs == [] then [] else Insert(xs[0], Sort(xs[1..], desc), desc)
  }

  /** Sorted in the requested direction, and elements with equal keys in
      increasing identifier order. */
  ghost predicate Ranked(r: seq<Keyed>, desc: bool)
  {
    forall i, j :: 0 <= i < j < |r| ==>
      Before(r[i], r[j], desc) && (Before(r[j], r[i], desc) ==> r[i].id < r[j].id)
  }

  ghost predicate IncreasingIds(xs: seq<Keyed>)
  {
    forall i, j :: 0 <= i < j < |xs| ==> xs[i].id < xs[j].id
  }

  lemma {:induction false} InsertContents(x: Keyed, ys: seq<Keyed>, desc: bool)
    ensures multiset(Insert(x, ys, desc)) == multiset(ys) + multiset{x}
  {
    if ys != [] && !Before(x, ys[0], desc) {
      InsertContents(x, ys[1..], desc);
      assert ys == [ys[0]] + ys[1..];
    }
  }

  lemma {:induction false} InsertIds(x: Keyed, ys: seq<Keyed>, desc: bool)
    ensures multiset(Ids(Insert(x, ys, desc))) == multiset(Ids(ys)) + multiset{x.id}
  {
    if ys == [] {
      assert Ids([x]) == [x.id] + Ids([]);
    } else if Before(x, ys[0], desc) {
      assert ([x] + ys)[1..] == ys;
      assert Ids([x] + ys) == [x.id] + Ids(ys);
    } else {
      InsertIds(x, ys[1..], desc);
      var rest := Insert(x, ys[1..], desc);
      assert ([ys[0]] + rest)[1..] == rest;
      assert Ids([ys[0]] + rest) == [ys[0].id] + Ids(rest);
      assert Ids(ys) == [ys[0].id] + Ids(ys[1..]);
    }
  }

  /** `x` placed in front of a ranked sequence whose first element it may precede. */
  lemma PrependRanked(x: Keyed, ys: seq<Keyed>, desc: bool)
    requires Ranked(ys, desc) && ys != [] && Before(x, ys[0], desc)
    requires forall y :: y in ys ==> x.id < y.id
    ensures Ranked([x] + ys, desc)
  {
    var r := [x] + ys;
    forall i, j | 0 <= i < j < |r|
      ensures Before(r[i], r[j], desc) && (Before(r[j], r[i], desc) ==> r[i].id < r[j].id)
    {
      if i == 0 {
        assert r[j] in ys;
        if j > 1 {
          if desc { KeyLeTrans(ys[j - 1].key, ys[0].key, x.key); }
          else { KeyLeTrans(x.key, ys[0].key, ys[j - 1].key); }
        }
      } else {
        assert r[i] == ys[i - 1] && r[j] == ys[j - 1];
      }
    }
  }

  /** The head `y` of a ranked sequence kept in front of the insertion of `x`
      into the tail. */
  lemma KeepHeadRanked(x: Keyed, ys: seq<Keyed>, rest: seq<Keyed>, desc: bool)
    requires Ranked(ys, desc) && ys != [] && Before(ys[0], x, desc) && !Before(x, ys[0], desc)
    requires Ranked(rest, desc) && multiset(rest) == multiset(ys[1..]) + multiset{x}
    ensures Ranked([ys[0]] + rest, desc)
  {
    var r := [ys[0]] + rest;
    forall i, j | 0 <= i < j < |r|
      ensures Before(r[i], r[j], desc) && (Before(r[j], r[i], desc) ==> r[i].id < r[j].id)
    {
      if i == 0 {
        assert r[j] == rest[j - 1];
        assert r[j] in multiset(rest);
        if r[j] != x {
          assert r[j] in multiset(ys[1..]);
          var k :| 0 <= k < |ys[1..]| && ys[1..][k] == r[j];
          assert ys[k + 1] == r[j];
        }
      } else {
        assert r[i] == rest[i - 1] && r[j] == rest[j - 1];
      }
    }
  }

  lemma {:induction false} InsertRanked(x: Keyed, ys: seq<Keyed>, desc: bool)
    requires Ranked(ys, desc)
    requires forall y :: y in ys ==> x.id < y.id
    ensures Ranked(Insert(x, ys, desc), desc)
  {
    if ys == [] {
    } else if Before(x, ys[0], desc) {
      PrependRanked(x, ys, desc);
    } else {
      KeyLeTotal(x.key, ys[0].key);
      assert forall y :: y in ys[1..] ==> y in ys;
      InsertRanked(x, ys[1..], desc);
      InsertContents(x, ys[1..], desc);
      KeepHeadRanked(x, ys, Insert(x, ys[1..], desc), desc);
    }
  }

  lemma {:induction false} SortContents(xs: seq<Keyed>, desc: bool)
    ensures multiset(Sort(xs, desc)) == multiset(xs)
  {
    if xs != [] {
      var t := xs[1..];
      SortContents(t, desc);
      InsertContents(xs[0], Sort(t, desc), desc);
      assert xs == [xs[0]] + t;
    }
  }

  lemma {:induction false} SortIds(xs: seq<Keyed>, desc: bool)
    ensures multiset(Ids(Sort(xs, desc))) == multiset(Ids(xs))
  {
    if xs != [] {
      var t := xs[1..];
      SortIds(t, desc);
      InsertIds(xs[0], Sort(t, desc), desc);
      assert Sort(xs, desc) == Insert(xs[0], Sort(t, desc), desc);
      assert Ids(xs) == [xs[0].id] + Ids(t);
      assert multiset(Ids(xs)) == multiset{xs[0].id} + multiset(Ids(t));
    }
  }

  lemma {:induction false} SortRanked(xs: seq<Keyed>, desc: bool)
    requires IncreasingIds(xs)
    ensures Ranked(Sort(xs, desc), desc)
  {
    if xs != [] {
      var t := xs[1..];
      assert IncreasingIds(t);
      SortRanked(t, desc);
      SortContents(t, desc);
      var st := Sort(t, desc);
      assert forall y :: y in st ==> xs[0].id < y.id by {
        forall y | y in st ensures xs[0].id < y.id {
          assert y in multiset(t);
          var k :| 0 <= k < |t| && t[k] == y;
          assert xs[k + 1] == y;
        }
      }
      InsertRanked(xs[0], st, desc);
    }
  }

  /** The two promises of Python's stable sort, over identifiers listed in
      increasing order: a permutation, ordered by key, ties by identifier. */
  lemma SortSpec(xs: seq<Keyed>, desc: bool)
    requires IncreasingIds(xs)
    ensures multiset(Sort(xs, desc)) == multiset(xs)
    ensures multiset(Ids(Sort(xs, desc))) == multiset(Ids(xs))
    ensures Ranked(Sort(xs, desc), desc)
  {
    SortContents(xs, desc);
    SortIds(xs, desc);
    SortRanked(xs, desc);
  }
}
