/** Iteration order of the embedded ordered key/value map: ascending byte order of the keys. */
module OrderedMap {
  import opened Prelude
  import opened Text

  predicate IsLeast(k: string, s: set<string>) {
    k in s && forall other :: other in s ==> other == k || LexLess(k, other)
  }

  lemma {:induction false} LeastExists(s: set<string>)
    requires s != {}
    ensures exists k :: IsLeast(k, s)
  {
    var x :| x in s;
    if s == {x} {
      assert IsLeast(x, s);
    } else {
      LeastExists(s - {x});
      var k' :| IsLeast(k', s - {x});
      LexTotal(x, k');
      var k := if LexLess(x, k') then x else k';
      forall other | other in s && other != k
        ensures LexLess(k, other)
      {
        if other != x && other != k' {
          if k == x { LexTransitive(x, k', other); }
        }
      }
      assert IsLeast(k, s);
    }
  }

  lemma LeastUnique(j: string, k: string, s: set<string>)
    requires IsLeast(j, s) && IsLeast(k, s)
    ensures j == k
  {
    if j != k { LexAsymmetric(j, k); }
  }

  function Least(s: set<string>): (k: string)
    requires s != {}
    ensures IsLeast(k, s)
  {
    LeastExists(s);
    assert forall j, k | IsLeast(j, s) && IsLeast(k, s) :: j == k by {
      forall j, k | IsLeast(j, s) && IsLeast(k, s) ensures j == k { LeastUnique(j, k, s); }
    }
    var k :| k in s && IsLeast(k, s);
    k
  }

  ghost predicate Ascending(q: seq<string>) {
    forall i, j :: 0 <= i < j < |q| ==> LexLess(q[i], q[j])
  }

  function Sorted(s: set<string>): (q: seq<string>)
    ensures forall k :: k in q <==> k in s
    ensures Ascending(q)
    decreases s
  {
    if s == {} then []
    else
      var k := Least(s);
      [k] + Sorted(s - {k})
  }

  lemma AscendingDistinct(q: seq<string>)
    requires Ascending(q)
    ensures Distinct(q)
  {
    forall i, j | 0 <= i < j < |q| ensures q[i] != q[j] { LexAsymmetric(q[i], q[j]); }
  }

  /** An ascending sequence is determined by its elements. */
  lemma {:induction false} AscendingUnique(a: seq<string>, b: seq<string>)
    requires Ascending(a) && Ascending(b)
    requires forall k :: k in a <==> k in b
    ensures a == b
  {
    assert b != [] ==> b[0] in b;
    if a == [] {
    } else {
      assert a[0] in a;
      assert b != [] && b[0] in b;
      if a[0] != b[0] {
        assert LexLess(a[0], b[0]) && LexLess(b[0], a[0]);
        LexAsymmetric(a[0], b[0]);
      }
      AscendingDistinct(a);
      AscendingDistinct(b);
      forall k
        ensures k in a[1..] <==> k in b[1..]
      {
        assert k in a <==> k == a[0] || k in a[1..];
        assert k in b <==> k == b[0] || k in b[1..];
      }
      AscendingUnique(a[1..], b[1..]);
    }
  }

  lemma {:induction false} KeepAscending(f: string -> bool, q: seq<string>)
    requires Ascending(q)
    ensures Ascending(Keep(f, q))
  {
    if q != [] {
      KeepAscending(f, q[1..]);
      forall k | k in Keep(f, q[1..]) ensures LexLess(q[0], k) { assert k in q[1..]; }
    }
  }

  predicate Below(p: string, k: string) { p <= k }

  /** The keys with prefix `p`, in iteration order: what `scan_prefix` walks over. */
  function ScanPrefix<V>(db: map<string, V>, p: string): (q: seq<string>)
    ensures forall k :: k in q <==> k in db && Below(p, k)
    ensures Ascending(q)
  {
    Sorted(set k | k in db && Below(p, k))
  }

  /** Two maps with the same keys below `p` are walked in the same order. */
  lemma ScanSame<V>(db: map<string, V>, db': map<string, V>, p: string)
    requires forall k :: Below(p, k) ==> (k in db <==> k in db')
    ensures ScanPrefix(db', p) == ScanPrefix(db, p)
  {
    AscendingUnique(ScanPrefix(db', p), ScanPrefix(db, p));
  }

  /** A new greatest key below `p` comes last. */
  lemma ScanInsertLast<V>(db: map<string, V>, p: string, key: string, v: V)
    requires Below(p, key) && key !in db
    requires forall k :: k in ScanPrefix(db, p) ==> LexLess(k, key)
    ensures ScanPrefix(db[key := v], p) == ScanPrefix(db, p) + [key]
  {
    AscendingUnique(ScanPrefix(db[key := v], p), ScanPrefix(db, p) + [key]);
  }

  /** Removing keys keeps the others in order. */
  lemma ScanRemove<V>(db: map<string, V>, gone: set<string>, p: string)
    ensures ScanPrefix(db - gone, p) == Keep((k: string) => k !in gone, ScanPrefix(db, p))
  {
    var f := (k: string) => k !in gone;
    KeepAscending(f, ScanPrefix(db, p));
    AscendingUnique(ScanPrefix(db - gone, p), Keep(f, ScanPrefix(db, p)));
  }
}
