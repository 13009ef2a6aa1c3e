/**
 What a scan selects, said of the operation itself and without the filter that it applies: which
 atoms of a log come back, in which order, and how a limit and a time window cut them.
 */
module SledScan {
  import opened Prelude
  import opened Text
  import opened Atoms
  import opened SledKeys
  import opened SledStore
  import opened SledLogs
  import T = Timestamps

  lemma ScansLog(c: Codec, db: Db, w: WorldKey, f: AtomFilter)
    requires LogInv(c, db) && Plain(w)
    ensures Scan(c, db, w, f) == Ok(FilteredLog(Log(c, db, w), w, f))
  {
    hide LogPrefix, Plain, Log, Scan;
    assert WorldInv(c, db, w);
    ScanMeaning(c, db, w, f);
  }

  /** Not earlier as a string. */
  lemma LexAtLeast(x: string, y: string)
    ensures !LexLess(x, y) <==> x == y || LexLess(y, x)
  {
    LexTotal(x, y);
    if LexLess(y, x) { LexAsymmetric(y, x); }
    if LexLess(x, y) { LexAsymmetric(x, y); }
  }

  /**
   A scan without a limit returns a logged atom exactly when its kind is among those asked for, if any
   are, it carries every label and every flag asked for, and its timestamp, as a string, is between
   `since` and `until`, both included; and nothing if the filter is for another world.
   */
  lemma ScanSelects(c: Codec, db: Db, w: WorldKey, f: AtomFilter, a: Atom)
    requires LogInv(c, db) && Plain(w) && f.limit.None?
    ensures var r := Scan(c, db, w, f);
            r.Ok? && (a in r.value <==>
              && a in Log(c, db, w)
              && (f.world.Some? ==> f.world.value == w)
              && (f.kinds == [] || a.kind in f.kinds)
              && (forall l :: l in f.labels ==> l in a.labels)
              && (forall g :: g in f.flags ==> g in a.flags)
              && (f.since.Some? ==> f.since.value == a.timestamp || LexLess(f.since.value, a.timestamp))
              && (f.until.Some? ==> a.timestamp == f.until.value || LexLess(a.timestamp, f.until.value)))
  {
    hide Scan, Log, LogInv, Plain;
    ScansLog(c, db, w, f);
    SelectionMeaning(a, f);
  }

  lemma SelectionMeaning(a: Atom, f: AtomFilter)
    ensures MatchesFilter(a, f) <==>
              && (f.kinds == [] || a.kind in f.kinds)
              && (forall l :: l in f.labels ==> l in a.labels)
              && (forall g :: g in f.flags ==> g in a.flags)
              && (f.since.Some? ==> f.since.value == a.timestamp || LexLess(f.since.value, a.timestamp))
              && (f.until.Some? ==> a.timestamp == f.until.value || LexLess(a.timestamp, f.until.value))
  {
    hide LexLess;
    if f.since.Some? { LexAtLeast(a.timestamp, f.since.value); }
    if f.until.Some? { LexAtLeast(f.until.value, a.timestamp); }
    AllInMeaning(f.labels, a.labels);
    AllInMeaning(f.flags, a.flags);
  }

  /** A scan keeps the order of the log. */
  lemma ScanInOrder(c: Codec, db: Db, w: WorldKey, f: AtomFilter, i: nat, j: nat)
    requires LogInv(c, db) && Plain(w) && f.limit.None?
    requires Scan(c, db, w, f).Ok? && i < j < |Scan(c, db, w, f).value|
    ensures var r, log := Scan(c, db, w, f).value, Log(c, db, w);
            exists p, q :: 0 <= p < q < |log| && log[p] == r[i] && log[q] == r[j]
  {
    hide Scan, Log, LogInv, Plain, MatchesFilter;
    ScansLog(c, db, w, f);
    KeepInOrder((a: Atom) => MatchesFilter(a, f), Log(c, db, w), i, j);
  }

  /** A limit returns that many of the first atoms of the unlimited scan, and at least one. */
  lemma ScanLimited(c: Codec, db: Db, w: WorldKey, f: AtomFilter, n: nat)
    requires LogInv(c, db) && Plain(w) && f.limit.None?
    ensures var all := Scan(c, db, w, f);
            var r := Scan(c, db, w, f.(limit := Some(n)));
            && all.Ok? && r.Ok? && r.value <= all.value
            && |r.value| == (if n == 0 && all.value != [] then 1 else if n <= |all.value| then n else |all.value|)
  {
    hide Scan, Log, LogInv, Plain, MatchesFilter;
    ScansLog(c, db, w, f);
    ScansLog(c, db, w, f.(limit := Some(n)));
    var g := f.(limit := Some(n));
    var log := Log(c, db, w);
    forall a ensures MatchesFilter(a, g) == MatchesFilter(a, f) { SelectionMeaning(a, f); SelectionMeaning(a, g); }
    KeepCongruent((a: Atom) => MatchesFilter(a, g), (a: Atom) => MatchesFilter(a, f), log);
  }

  /** Whether a text is a UTC timestamp without a fraction of a second. */
  predicate WholeSecond(s: string) { |s| == 20 && T.Parse(s).Some? }

  /**
   On UTC timestamps without fractions the window is one of time: a scan returns a logged atom exactly
   when it meets the rest of the filter and lies from `since` to `until`, in epoch seconds.
   */
  lemma ScanInWindow(c: Codec, db: Db, w: WorldKey, f: AtomFilter, a: Atom)
    requires LogInv(c, db) && Plain(w) && f.limit.None? && a in Log(c, db, w)
    requires WholeSecond(a.timestamp)
    requires f.since.Some? ==> WholeSecond(f.since.value)
    requires f.until.Some? ==> WholeSecond(f.until.value)
    ensures var r := Scan(c, db, w, f);
            r.Ok? && (a in r.value <==>
              && (f.world.Some? ==> f.world.value == w)
              && (f.kinds == [] || a.kind in f.kinds)
              && (forall l :: l in f.labels ==> l in a.labels)
              && (forall g :: g in f.flags ==> g in a.flags)
              && (f.since.Some? ==> T.EpochOf(f.since.value).value <= T.EpochOf(a.timestamp).value)
              && (f.until.Some? ==> T.EpochOf(a.timestamp).value <= T.EpochOf(f.until.value).value))
  {
    hide Scan, Log, LogInv, Plain, T.Parse, LexLess, T.EpochOf;
    ScanSelects(c, db, w, f, a);
    if f.since.Some? { WindowBound(f.since.value, a.timestamp); }
    if f.until.Some? { WindowBound(a.timestamp, f.until.value); }
  }

  lemma WindowBound(x: string, y: string)
    requires WholeSecond(x) && WholeSecond(y)
    ensures T.EpochOf(x).Some? && T.EpochOf(y).Some?
    ensures x == y || LexLess(x, y) <==> T.EpochOf(x).value <= T.EpochOf(y).value
  {
    hide LexLess, T.Parse, T.Epoch;
    T.SameShapeAgrees(x, y);
  }
}
