/** Small building blocks shared by every model: optional values, results, and filtering. */
module Prelude {
  datatype Option<+T> = None | Some(value: T)

  datatype Result<+T, +E> = Ok(value: T) | Err(error: E)

  /** The order-preserving sublist of the elements that satisfy `f`. */
  function Keep<T(!new)>(f: T -> bool, s: seq<T>): (r: seq<T>)
    ensures |r| <= |s|
    ensures forall x :: x in r <==> x in s && f(x)
  {
    if s == [] then []
    else (if f(s[0]) then [s[0]] else []) + Keep(f, s[1..])
  }

  lemma {:induction false} KeepAppend<T(!new)>(f: T -> bool, a: seq<T>, b: seq<T>)
    ensures Keep(f, a + b) == Keep(f, a) + Keep(f, b)
  {
    if a == [] {
      assert a + b == b;
    } else {
      assert (a + b)[1..] == a[1..] + b;
      KeepAppend(f, a[1..], b);
    }
  }

  lemma KeepCons<T(!new)>(f: T -> bool, x: T, s: seq<T>)
    ensures Keep(f, [x] + s) == if f(x) then [x] + Keep(f, s) else Keep(f, s)
  {
    assert ([x] + s)[1..] == s;
  }

  lemma KeepSnoc<T(!new)>(f: T -> bool, s: seq<T>, x: T)
    ensures Keep(f, s + [x]) == if f(x) then Keep(f, s) + [x] else Keep(f, s)
  {
    KeepAppend(f, s, [x]);
  }

  lemma {:induction false} KeepCongruent<T(!new)>(f: T -> bool, g: T -> bool, s: seq<T>)
    requires forall x :: x in s ==> f(x) == g(x)
    ensures Keep(f, s) == Keep(g, s)
  {
    if s != [] {
      KeepCongruent(f, g, s[1..]);
    }
  }

  lemma {:induction false} KeepAll<T(!new)>(f: T -> bool, s: seq<T>)
    requires forall x :: x in s ==> f(x)
    ensures Keep(f, s) == s
  {
    if s != [] {
      KeepAll(f, s[1..]);
    }
  }

  lemma {:induction false} KeepNone<T(!new)>(f: T -> bool, s: seq<T>)
    requires forall x :: x in s ==> !f(x)
    ensures Keep(f, s) == []
  {
    if s != [] {
      KeepNone(f, s[1..]);
    }
  }

  lemma {:induction false} KeepTwice<T(!new)>(f: T -> bool, g: T -> bool, both: T -> bool, s: seq<T>)
    requires forall x :: x in s ==> both(x) == (f(x) && g(x))
    ensures Keep(f, Keep(g, s)) == Keep(both, s)
  {
    if s != [] {
      hide Keep;
      var x := s[0];
      var rest := s[1..];
      assert s == [x] + rest;
      KeepTwice(f, g, both, rest);
      KeepCons(g, x, rest);
      KeepCons(both, x, rest);
      if g(x) { KeepCons(f, x, Keep(g, rest)); }
    }
  }

  /** What is kept stays in order. */
  lemma {:induction false} KeepInOrder<T(!new)>(f: T -> bool, s: seq<T>, i: nat, j: nat)
    requires i < j < |Keep(f, s)|
    ensures exists p, q :: 0 <= p < q < |s| && s[p] == Keep(f, s)[i] && s[q] == Keep(f, s)[j]
  {
    var rest := s[1..];
    var here := if f(s[0]) then 1 else 0;
    if i < here {
      assert Keep(f, s)[j] == Keep(f, rest)[j - 1] && Keep(f, s)[j] in rest;
      var q :| 0 <= q < |rest| && rest[q] == Keep(f, s)[j];
      assert s[0] == Keep(f, s)[i] && s[q + 1] == Keep(f, s)[j];
    } else {
      KeepInOrder(f, rest, i - here, j - here);
      var p, q :| 0 <= p < q < |rest| && rest[p] == Keep(f, rest)[i - here] && rest[q] == Keep(f, rest)[j - here];
      assert s[p + 1] == Keep(f, s)[i] && s[q + 1] == Keep(f, s)[j];
    }
  }

  function Map<T, U>(f: T -> U, s: seq<T>): (r: seq<U>)
    ensures |r| == |s| && forall i :: 0 <= i < |s| ==> r[i] == f(s[i])
  {
    seq(|s|, i requires 0 <= i < |s| => f(s[i]))
  }

  ghost predicate Distinct<T>(s: seq<T>) {
    forall i, j :: 0 <= i < j < |s| ==> s[i] != s[j]
  }
}
