/**
 The reflex index: recent atoms per world in time buckets. Each insert trims its world's buckets
 measured from the bucket just inserted, not from the newest one, and the exact content says so.
 */
module Reflex {
  import opened Prelude
  import opened Atoms

  /** The configuration; `parse` gives the epoch seconds of a timestamp, if it is one. */
  datatype Config = Config(recencySeconds: nat, bucketWidth: nat, parse: string -> Option<int>) {
    function Width(): (r: nat) ensures r >= 1 { if bucketWidth == 0 then 1 else bucketWidth }

    function Window(): (r: nat)
      ensures r >= 1
    {
      if recencySeconds / Width() == 0 then 1 else recencySeconds / Width()
    }

    predicate Parses(a: Atom) { parse(a.timestamp).Some? }

    /** Integer division of the epoch seconds, rounding toward zero. */
    function BucketOf(a: Atom): int {
      match parse(a.timestamp)
      case None => 0
      case Some(t) => if t >= 0 then t / Width() else -((-t) / Width())
    }
  }

  /**
   What buckets are: spans of the configured width (at least a second) counted from 1970, the first of
   them on both sides of it; and the window is the recency in whole buckets, or one.
   */
  lemma BucketMeaning(cfg: Config, a: Atom, t: int)
    requires cfg.parse(a.timestamp) == Some(t)
    ensures var width, b := cfg.Width(), cfg.BucketOf(a);
            && width == (if cfg.bucketWidth == 0 then 1 else cfg.bucketWidth)
            && (t >= 0 ==> b * width <= t < b * width + width)
            && (t < 0 ==> b * width - width < t <= b * width)
            && (cfg.recencySeconds < 2 * width ==> cfg.Window() == 1)
            && (cfg.recencySeconds >= width ==>
                  cfg.Window() * width <= cfg.recencySeconds < cfg.Window() * width + width)
  {
    var width := cfg.Width();
    Quotient(if t >= 0 then t else -t, width);
    Quotient(cfg.recencySeconds, width);
    if cfg.recencySeconds < 2 * width { SmallQuotient(cfg.recencySeconds, width); }
    if t < 0 { assert cfg.BucketOf(a) * width == -(((-t) / width) * width); }
    if cfg.recencySeconds >= width { LargeQuotient(cfg.recencySeconds, width); }
  }

  lemma Quotient(n: nat, d: nat)
    requires d >= 1
    ensures (n / d) * d <= n < (n / d) * d + d
  {
  }

  lemma SmallQuotient(n: nat, d: nat)
    requires d >= 1 && n < 2 * d
    ensures n / d <= 1
  {
  }

  lemma LargeQuotient(n: nat, d: nat)
    requires d >= 1 && n >= d
    ensures n / d >= 1
  {
  }

  type Buckets = map<int, seq<Atom>>
  type Index = map<WorldKey, Buckets>

  function BucketsOf(index: Index, w: WorldKey): Buckets {
    if w in index then index[w] else map[]
  }

  function Content(index: Index, w: WorldKey, b: int): seq<Atom> {
    if b in BucketsOf(index, w) then BucketsOf(index, w)[b] else []
  }

  function Trim(buckets: Buckets, newest: int, window: nat): Buckets {
    map b | b in buckets && b >= newest - window :: buckets[b]
  }

  function Inserted(cfg: Config, index: Index, a: Atom): Index {
    if !cfg.Parses(a) then index
    else
      var b := cfg.BucketOf(a);
      var pushed := BucketsOf(index, a.world)[b := Content(index, a.world, b) + [a]];
      index[a.world := Trim(pushed, b, cfg.Window())]
  }

  datatype ReflexFilter = ReflexFilter(
    world: Option<WorldKey>,
    kinds: seq<AtomKind>,
    labels: seq<string>,
    author: Option<string>,
    minImportance: Option<real>,
    since: Option<string>,
    excludeFlags: seq<string>)

  /** The reflex test. Flags exclude here, and `since` compares epoch seconds. */
  predicate Passes(cfg: Config, f: ReflexFilter, since: Option<int>, a: Atom) {
    && (f.kinds != [] ==> a.kind in f.kinds)
    && (f.author.Some? ==> a.worker == f.author.value)
    && (f.minImportance.Some? ==> a.importance >= f.minImportance.value)
    && (since.Some? && cfg.Parses(a) ==> cfg.parse(a.timestamp).value >= since.value)
    && AllIn(f.labels, a.labels)
    && !AnyIn(f.excludeFlags, a.flags)
  }

  /**
   Storage requires flags where the reflex test excludes them: an atom passes both flag tests exactly
   when there is none to test, and the two agree on it then, or when it has some of them but not all.
   */
  lemma FlagTestsAgree(wanted: seq<string>, flags: seq<string>)
    ensures AllIn(wanted, flags) && !AnyIn(wanted, flags) <==> wanted == []
    ensures (AllIn(wanted, flags) <==> !AnyIn(wanted, flags)) <==>
              wanted == [] || (AnyIn(wanted, flags) && !AllIn(wanted, flags))
  {
    if wanted != [] && AllIn(wanted, flags) { assert wanted[0] in flags; }
  }

  predicate Asked(f: ReflexFilter, w: WorldKey) { f.world.Some? ==> f.world.value == w }

  /** The atoms of `r` that belong to one bucket of one world, in the order of `r`. */
  function Within(cfg: Config, r: seq<Atom>, w: WorldKey, b: int): seq<Atom> {
    Keep((a: Atom) => a.world == w && cfg.BucketOf(a) == b, r)
  }

  function Kept(cfg: Config, f: ReflexFilter, since: Option<int>, atoms: seq<Atom>): seq<Atom> {
    Keep((a: Atom) => Passes(cfg, f, since, a), atoms)
  }

  /** The buckets a filter visits. */
  function Slots(index: Index, f: ReflexFilter): set<(WorldKey, int)> {
    set w, b | w in index && b in index[w] && Asked(f, w) :: (w, b)
  }

  /** `r` holds, bucket by bucket and in order, the passing atoms of every bucket not still pending. */
  ghost predicate Collected(
    cfg: Config, index: Index, f: ReflexFilter, since: Option<int>, r: seq<Atom>, pending: set<(WorldKey, int)>)
  {
    && (forall w, b :: Within(cfg, r, w, b)
                    == if Asked(f, w) && (w, b) !in pending then Kept(cfg, f, since, Content(index, w, b)) else [])
    && (forall a :: a in r ==> a in Content(index, a.world, cfg.BucketOf(a)))
  }

  lemma CollectedStart(cfg: Config, index: Index, f: ReflexFilter, since: Option<int>)
    ensures Collected(cfg, index, f, since, [], Slots(index, f))
  {
  }

  lemma SlotContent(cfg: Config, index: Index, f: ReflexFilter, e: (WorldKey, int))
    requires Filed(cfg, index) && e in Slots(index, f)
    ensures e.0 in index && e.1 in index[e.0] && Content(index, e.0, e.1) == index[e.0][e.1] && Asked(f, e.0)
    ensures forall a :: a in index[e.0][e.1] ==> a.world == e.0 && cfg.Parses(a) && cfg.BucketOf(a) == e.1
  {
  }

  lemma KeptAreContent(cfg: Config, f: ReflexFilter, since: Option<int>, atoms: seq<Atom>)
    ensures forall a :: a in Kept(cfg, f, since, atoms) ==> a in atoms
  {
    hide Passes;
  }

  lemma CollectedMore(cfg: Config, index: Index, f: ReflexFilter, since: Option<int>, r: seq<Atom>,
                      pending: set<(WorldKey, int)>, e: (WorldKey, int))
    requires Collected(cfg, index, f, since, r, pending) && e in pending && Asked(f, e.0)
    requires forall a :: a in Content(index, e.0, e.1) ==> a.world == e.0 && cfg.BucketOf(a) == e.1
    ensures Collected(cfg, index, f, since, r + Kept(cfg, f, since, Content(index, e.0, e.1)), pending - {e})
  {
    hide Within, Content, Passes, Kept, Config.BucketOf;
    var more := Kept(cfg, f, since, Content(index, e.0, e.1));
    KeptAreContent(cfg, f, since, Content(index, e.0, e.1));
    WithinBucket(cfg, r, more, e.0, e.1);
    forall w, b
      ensures Within(cfg, r + more, w, b)
           == if Asked(f, w) && (w, b) !in pending - {e} then Kept(cfg, f, since, Content(index, w, b)) else []
    {
      if (w, b) == e { assert [] + more == more; }
    }
  }

  /** Every atom sits in the world and the bucket its own fields name. */
  ghost predicate Filed(cfg: Config, index: Index) {
    forall w, b, a :: a in Content(index, w, b) ==> a.world == w && cfg.Parses(a) && cfg.BucketOf(a) == b
  }

  datatype TimestampError = InvalidTimestamp

  class ReflexIndex {
    const cfg: Config
    var buckets: Index

    ghost predicate Valid()
      reads this
    {
      Filed(cfg, buckets)
    }

    constructor (cfg: Config)
      ensures Valid() && this.cfg == cfg && buckets == map[]
    {
      this.cfg := cfg;
      buckets := map[];
    }

    method Insert(a: Atom) returns (r: Result<(), TimestampError>)
      requires Valid()
      modifies this`buckets
      ensures Valid() && buckets == Inserted(cfg, old(buckets), a)
      ensures r.Ok? <==> cfg.Parses(a)
    {
      if cfg.parse(a.timestamp).None? { return Err(InvalidTimestamp); }
      var bucket := cfg.BucketOf(a);
      var mine := BucketsOf(buckets, a.world);
      mine := mine[bucket := Content(buckets, a.world, bucket) + [a]];
      ContentAfterInsert(cfg, buckets, a);
      buckets := buckets[a.world := Trim(mine, bucket, cfg.Window())];
      return Ok(());
    }

    /** The loop body of the filter, for one bucket. */
    method FilterBucket(f: ReflexFilter, since: Option<int>, atoms: seq<Atom>) returns (r: seq<Atom>)
      requires forall a :: a in atoms ==> cfg.Parses(a)
      ensures r == Kept(cfg, f, since, atoms)
    {
      hide Keep, AllIn, AnyIn;
      r := [];
      ghost var test := (a: Atom) => Passes(cfg, f, since, a);
      KeepNone(test, []);
      for i := 0 to |atoms|
        invariant r == Keep(test, atoms[..i])
      {
        var a := atoms[i];
        assert atoms[..i + 1] == atoms[..i] + [a];
        KeepSnoc(test, atoms[..i], a);
        if f.kinds != [] && a.kind !in f.kinds { continue; }
        if f.author.Some? && a.worker != f.author.value { continue; }
        if f.minImportance.Some? && a.importance < f.minImportance.value { continue; }
        if since.Some? && cfg.parse(a.timestamp).value < since.value { continue; }
        if !AllIn(f.labels, a.labels) { continue; }
        if AnyIn(f.excludeFlags, a.flags) { continue; }
        r := r + [a];
      }
      assert atoms[..|atoms|] == atoms;
    }

    /** Buckets are visited in an arbitrary order; within a bucket, order and repetition are kept. */
    method Filter(f: ReflexFilter) returns (r: Result<seq<Atom>, TimestampError>)
      requires Valid()
      ensures r.Err? <==> f.since.Some? && cfg.parse(f.since.value).None?
      ensures r.Ok? ==>
                Collected(cfg, buckets, f, if f.since.None? then None else cfg.parse(f.since.value), r.value, {})
    {
      var since: Option<int> := None;
      if f.since.Some? {
        since := cfg.parse(f.since.value);
        if since.None? { return Err(InvalidTimestamp); }
      }
      var pending := Slots(buckets, f);
      var results := [];
      CollectedStart(cfg, buckets, f, since);
      while pending != {}
        invariant pending <= Slots(buckets, f)
        invariant Collected(cfg, buckets, f, since, results, pending)
        decreases pending
      {
        hide Collected, Kept, Content, Slots, Filed, Config.BucketOf, Config.Parses;
        var e :| e in pending;
        SlotContent(cfg, buckets, f, e);
        var more := FilterBucket(f, since, buckets[e.0][e.1]);
        CollectedMore(cfg, buckets, f, since, results, pending, e);
        results := results + more;
        pending := pending - {e};
      }
      return Ok(results);
    }
  }

  /** Appending atoms of one bucket extends that bucket's share and no other's. */
  lemma WithinBucket(cfg: Config, r: seq<Atom>, more: seq<Atom>, w: WorldKey, b: int)
    requires forall a :: a in more ==> a.world == w && cfg.BucketOf(a) == b
    ensures forall v, c :: Within(cfg, r + more, v, c)
                        == if v == w && c == b then Within(cfg, r, v, c) + more else Within(cfg, r, v, c)
  {
    forall v, c
      ensures Within(cfg, r + more, v, c)
           == if v == w && c == b then Within(cfg, r, v, c) + more else Within(cfg, r, v, c)
    {
      var f := (a: Atom) => a.world == v && cfg.BucketOf(a) == c;
      KeepAppend(f, r, more);
      if v == w && c == b {
        KeepAll(f, more);
      } else {
        KeepNone(f, more);
      }
    }
  }

  /**
   What a filter returns, of all buckets together: the atoms of the world asked for that are in the
   index, and meet every part of the filter that is there.
   */
  lemma FilterSelects(cfg: Config, index: Index, f: ReflexFilter, since: Option<int>, r: seq<Atom>, a: Atom)
    requires Filed(cfg, index) && Collected(cfg, index, f, since, r, {})
    ensures a in r <==>
              && (exists w, b :: w in index && b in index[w] && a in index[w][b])
              && (f.world.Some? ==> a.world == f.world.value)
              && (f.kinds == [] || a.kind in f.kinds)
              && (f.author.Some? ==> a.worker == f.author.value)
              && (f.minImportance.Some? ==> f.minImportance.value <= a.importance)
              && (since.Some? ==> exists t :: cfg.parse(a.timestamp) == Some(t) && since.value <= t)
              && (forall l :: l in f.labels ==> l in a.labels)
              && (forall g :: g in f.excludeFlags ==> g !in a.flags)
  {
    hide Config.BucketOf, Content, Passes, Filed;
    InContent(cfg, index, a);
    FilterKeeps(cfg, index, f, since, r, a);
    if a in Content(index, a.world, cfg.BucketOf(a)) {
      IndexedParse(cfg, index, a);
      PassesMeaning(cfg, f, since, a);
    }
  }

  lemma FilterKeeps(cfg: Config, index: Index, f: ReflexFilter, since: Option<int>, r: seq<Atom>, a: Atom)
    requires Collected(cfg, index, f, since, r, {})
    ensures a in r <==> Asked(f, a.world) && a in Content(index, a.world, cfg.BucketOf(a)) && Passes(cfg, f, since, a)
  {
    hide Config.BucketOf, Content, Passes, Asked;
    var w, b := a.world, cfg.BucketOf(a);
    assert a in r <==> a in Within(cfg, r, w, b);
  }

  lemma IndexedParse(cfg: Config, index: Index, a: Atom)
    requires Filed(cfg, index) && a in Content(index, a.world, cfg.BucketOf(a))
    ensures cfg.Parses(a)
  {
  }

  lemma PassesMeaning(cfg: Config, f: ReflexFilter, since: Option<int>, a: Atom)
    requires cfg.parse(a.timestamp).Some?
    ensures Passes(cfg, f, since, a) <==>
              && (f.kinds == [] || a.kind in f.kinds)
              && (f.author.Some? ==> a.worker == f.author.value)
              && (f.minImportance.Some? ==> f.minImportance.value <= a.importance)
              && (since.Some? ==> exists t :: cfg.parse(a.timestamp) == Some(t) && since.value <= t)
              && (forall l :: l in f.labels ==> l in a.labels)
              && (forall g :: g in f.excludeFlags ==> g !in a.flags)
  {
    hide AllIn, AnyIn;
    AllInMeaning(f.labels, a.labels);
    AnyInMeaning(f.excludeFlags, a.flags);
  }

  /** An indexed atom is in the bucket of its own world that its timestamp names. */
  lemma InContent(cfg: Config, index: Index, a: Atom)
    requires Filed(cfg, index)
    ensures a in Content(index, a.world, cfg.BucketOf(a)) <==>
              exists w, b :: w in index && b in index[w] && a in index[w][b]
  {
    hide Config.BucketOf;
    if w, b :| w in index && b in index[w] && a in index[w][b] {
      assert a in Content(index, w, b);
    }
  }

  // ---------------------------------------------------------------- exact content over a run

  /** What one insert does to every bucket. */
  lemma ContentAfterInsert(cfg: Config, index: Index, a: Atom)
    requires cfg.Parses(a)
    ensures forall w, b :: Content(Inserted(cfg, index, a), w, b)
                        == if w != a.world then Content(index, w, b)
                           else if b < cfg.BucketOf(a) - cfg.Window() then []
                           else Content(index, w, b) + (if b == cfg.BucketOf(a) then [a] else [])
  {
  }

  function Inserts(cfg: Config, h: seq<Atom>): Index {
    if h == [] then map[] else Inserted(cfg, Inserts(cfg, h[..|h| - 1]), h[|h| - 1])
  }

  lemma {:induction false} InsertsFiled(cfg: Config, h: seq<Atom>)
    ensures Filed(cfg, Inserts(cfg, h))
  {
    hide Config.BucketOf, Inserted, Content, Config.Window;
    if h == [] {
      NothingFiled(cfg);
    } else {
      var front, a := h[..|h| - 1], h[|h| - 1];
      InsertsFiled(cfg, front);
      if cfg.Parses(a) {
        ContentAfterInsert(cfg, Inserts(cfg, front), a);
      } else {
        NotInserted(cfg, Inserts(cfg, front), a);
      }
    }
  }

  lemma NothingFiled(cfg: Config)
    ensures Filed(cfg, Inserts(cfg, []))
  {
  }

  lemma NotInserted(cfg: Config, index: Index, a: Atom)
    requires !cfg.Parses(a)
    ensures Inserted(cfg, index, a) == index
  {
  }

  /** The insert at `i` took effect, and no later insert in its world has trimmed its bucket away. */
  ghost predicate Live(cfg: Config, h: seq<Atom>, i: nat)
    requires i < |h|
  {
    cfg.Parses(h[i]) &&
    forall j :: i <= j < |h| && h[j].world == h[i].world && cfg.Parses(h[j]) ==>
      cfg.BucketOf(h[i]) >= cfg.BucketOf(h[j]) - cfg.Window()
  }

  /** What insert `i` still contributes to one bucket of one world. */
  ghost function LiveAt(cfg: Config, h: seq<Atom>, i: nat, w: WorldKey, b: int): seq<Atom>
    requires i < |h|
  {
    if Live(cfg, h, i) && h[i].world == w && cfg.BucketOf(h[i]) == b then [h[i]] else []
  }

  /** The live atoms among the first `n` inserts, for one bucket of one world, in insertion order. */
  ghost function LiveIn(cfg: Config, h: seq<Atom>, n: nat, w: WorldKey, b: int): seq<Atom>
    requires n <= |h|
  {
    if n == 0 then [] else LiveIn(cfg, h, n - 1, w, b) + LiveAt(cfg, h, n - 1, w, b)
  }

  /** One more insert leaves an earlier one live unless it trims that one's bucket. */
  lemma StillLive(cfg: Config, h: seq<Atom>, a: Atom, i: nat)
    requires i < |h|
    ensures Live(cfg, h + [a], i) <==>
              Live(cfg, h, i)
              && !(cfg.Parses(a) && a.world == h[i].world && cfg.BucketOf(h[i]) < cfg.BucketOf(a) - cfg.Window())
  {
    hide Config.BucketOf, Config.Window, Config.Parses;
    var all := h + [a];
    assert all[|h|] == a && forall j :: 0 <= j < |h| ==> all[j] == h[j];
    if Live(cfg, all, i) {
      forall j | i <= j < |h| && h[j].world == h[i].world && cfg.Parses(h[j])
        ensures cfg.BucketOf(h[i]) >= cfg.BucketOf(h[j]) - cfg.Window()
      {
        assert all[j] == h[j];
      }
    }
  }

  lemma LiveAtAfterInsert(cfg: Config, h: seq<Atom>, a: Atom, i: nat, w: WorldKey, b: int)
    requires i < |h|
    ensures LiveAt(cfg, h + [a], i, w, b)
         == if cfg.Parses(a) && w == a.world && b < cfg.BucketOf(a) - cfg.Window() then []
            else LiveAt(cfg, h, i, w, b)
  {
    hide Config.BucketOf, Config.Window, Config.Parses, Live;
    StillLive(cfg, h, a, i);
    assert (h + [a])[i] == h[i];
  }

  lemma {:induction false} LiveAfterInsert(cfg: Config, h: seq<Atom>, a: Atom, n: nat, w: WorldKey, b: int)
    requires n <= |h|
    ensures LiveIn(cfg, h + [a], n, w, b)
         == if cfg.Parses(a) && w == a.world && b < cfg.BucketOf(a) - cfg.Window() then []
            else LiveIn(cfg, h, n, w, b)
  {
    hide Config.BucketOf, Config.Window, Config.Parses, LiveAt;
    if n > 0 {
      LiveAfterInsert(cfg, h, a, n - 1, w, b);
      LiveAtAfterInsert(cfg, h, a, n - 1, w, b);
    }
  }

  /**
   After any sequence of inserts, each bucket holds exactly the live atoms that belong to it, with
   multiplicity and in insertion order.
   */
  lemma {:induction false} ExactContent(cfg: Config, h: seq<Atom>, w: WorldKey, b: int)
    ensures Content(Inserts(cfg, h), w, b) == LiveIn(cfg, h, |h|, w, b)
  {
    hide Live, Trim, Content, LiveIn, Config.BucketOf, Config.Window;
    if h == [] {
      EmptyIndex(w, b);
    } else {
      var n := |h| - 1;
      var front := h[..n];
      var a := h[n];
      assert front + [a] == h;
      LiveStep(cfg, front, a, w, b);
      ExactContent(cfg, front, w, b);
      LiveAfterInsert(cfg, front, a, n, w, b);
      if cfg.Parses(a) { ContentAfterInsert(cfg, Inserts(cfg, front), a); }
    }
  }

  lemma EmptyIndex(w: WorldKey, b: int)
    ensures Content(map[], w, b) == []
    ensures forall cfg: Config :: LiveIn(cfg, [], 0, w, b) == []
  {
  }

  lemma LiveStep(cfg: Config, h: seq<Atom>, a: Atom, w: WorldKey, b: int)
    ensures LiveIn(cfg, h + [a], |h| + 1, w, b)
         == LiveIn(cfg, h + [a], |h|, w, b)
            + (if cfg.Parses(a) && a.world == w && cfg.BucketOf(a) == b then [a] else [])
  {
  }

  /** Hence: an insert is still retained exactly when it is live. */
  lemma {:induction false} LiveListed(cfg: Config, h: seq<Atom>, n: nat, w: WorldKey, b: int, a: Atom)
    requires n <= |h|
    ensures a in LiveIn(cfg, h, n, w, b) <==>
              exists i :: 0 <= i < n && h[i] == a && Live(cfg, h, i) && a.world == w && cfg.BucketOf(a) == b
  {
    if n > 0 { LiveListed(cfg, h, n - 1, w, b, a); }
  }

  lemma RetainedIffLive(cfg: Config, h: seq<Atom>, a: Atom)
    ensures a in Content(Inserts(cfg, h), a.world, cfg.BucketOf(a)) <==>
              exists i :: 0 <= i < |h| && h[i] == a && Live(cfg, h, i)
  {
    ExactContent(cfg, h, a.world, cfg.BucketOf(a));
    LiveListed(cfg, h, |h|, a.world, cfg.BucketOf(a), a);
  }
}
