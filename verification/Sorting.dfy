/** Stable sorting by a total preorder, as the standard library's `sort_by` provides it. */
module Sorting {
  import opened Prelude

  ghost predicate TotalPreorder<T(!new)>(leq: (T, T) -> bool) {
    (forall a, b :: leq(a, b) || leq(b, a)) && (forall a, b, c :: leq(a, b) && leq(b, c) ==> leq(a, c))
  }

  ghost predicate SortedBy<T>(leq: (T, T) -> bool, s: seq<T>) {
    forall i, j :: 0 <= i < j < |s| ==> leq(s[i], s[j])
  }

  /** `x` goes before the first element it may precede. */
  function InsertBy<T>(leq: (T, T) -> bool, x: T, s: seq<T>): (r: seq<T>)
    ensures multiset(r) == multiset(s) + multiset{x}
  {
    if s == [] || leq(x, s[0]) then [x] + s
    else
      assert s == [s[0]] + s[1..];
      [s[0]] + InsertBy(leq, x, s[1..])
  }

  function SortBy<T>(leq: (T, T) -> bool, s: seq<T>): (r: seq<T>)
    ensures multiset(r) == multiset(s)
  {
    if s == [] then []
    else
      assert s == [s[0]] + s[1..];
      InsertBy(leq, s[0], SortBy(leq, s[1..]))
  }

  lemma SameElements<T>(a: seq<T>, b: seq<T>)
    requires multiset(a) == multiset(b)
    ensures |a| == |b| && forall x :: x in a <==> x in b
  {
    assert |multiset(a)| == |a| && |multiset(b)| == |b|;
    forall x
      ensures x in a <==> x in b
    {
      assert x in a <==> x in multiset(a);
      assert x in b <==> x in multiset(b);
    }
  }

  lemma {:induction false} InsertSorted<T(!new)>(leq: (T, T) -> bool, x: T, s: seq<T>)
    requires TotalPreorder(leq) && SortedBy(leq, s)
    ensures SortedBy(leq, InsertBy(leq, x, s))
  {
    if s != [] && !leq(x, s[0]) {
      var rest := InsertBy(leq, x, s[1..]);
      InsertSorted(leq, x, s[1..]);
      forall j | 0 <= j < |rest|
        ensures leq(s[0], rest[j])
      {
        assert rest[j] in multiset(rest);
        assert rest[j] == x || rest[j] in s[1..];
      }
    }
  }

  /** The result is in order. */
  lemma {:induction false} SortIsSorted<T(!new)>(leq: (T, T) -> bool, s: seq<T>)
    requires TotalPreorder(leq)
    ensures SortedBy(leq, SortBy(leq, s))
  {
    if s != [] {
      SortIsSorted(leq, s[1..]);
      InsertSorted(leq, s[0], SortBy(leq, s[1..]));
    }
  }

  /** Elements that tie with `x` both ways keep their order. */
  lemma {:induction false} InsertStable<T(!new)>(leq: (T, T) -> bool, tied: T -> bool, x: T, s: seq<T>)
    requires forall a, b :: tied(a) && tied(b) ==> leq(a, b)
    ensures Keep(tied, InsertBy(leq, x, s)) == Keep(tied, [x] + s)
  {
    if s != [] && !leq(x, s[0]) {
      InsertStable(leq, tied, x, s[1..]);
      KeepCons(tied, s[0], InsertBy(leq, x, s[1..]));
      KeepCons(tied, x, s[1..]);
      KeepCons(tied, x, s);
    }
  }

  /** The sort is stable: any class of mutually tied elements comes out in its original order. */
  lemma {:induction false} SortStable<T(!new)>(leq: (T, T) -> bool, tied: T -> bool, s: seq<T>)
    requires forall a, b :: tied(a) && tied(b) ==> leq(a, b)
    ensures Keep(tied, SortBy(leq, s)) == Keep(tied, s)
  {
    hide Keep, InsertBy;
    if s == [] {
      assert SortBy(leq, s) == [];
    } else {
      SortStable(leq, tied, s[1..]);
      InsertStable(leq, tied, s[0], SortBy(leq, s[1..]));
      KeepCons(tied, s[0], SortBy(leq, s[1..]));
      KeepCons(tied, s[0], s[1..]);
      assert s == [s[0]] + s[1..];
    }
  }
}
