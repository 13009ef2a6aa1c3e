/**
 What a reader sees in the store: the log of each world. `LogInv` holds of every store built by
 appends of fresh ids and deletions, and at every point where a crash may cut an append short.
 */
module SledLogs {
  import opened Prelude
  import opened Text
  import opened OrderedMap
  import opened Atoms
  import opened SledKeys
  import opened SledStore

  /** The atom a log key leads to, if its frame decodes and its body is present and decodes. */
  function AtomAt(c: Codec, db: Db, w: WorldKey, k: string): Option<Atom> {
    if k !in db then None
    else match c.decodeFrame(db[k])
         case None => None
         case Some(f) => if AtomKey(w, f.atomId) in db then c.decodeAtom(db[AtomKey(w, f.atomId)]) else None
  }

  function LogOf(c: Codec, db: Db, w: WorldKey, keys: seq<string>): seq<Atom> {
    if keys == [] then [] else Listing(AtomAt(c, db, w, keys[0])) + LogOf(c, db, w, keys[1..])
  }

  /** The atoms of a world in append order. */
  function Log(c: Codec, db: Db, w: WorldKey): seq<Atom> {
    LogOf(c, db, w, ScanPrefix(db, LogPrefix(w)))
  }

  predicate Canonical(w: WorldKey, k: string) {
    SeqOf(k).Some? && k == LogKey(w, SeqOf(k).value)
  }

  /** A frame that decodes, whose body matches its checksum and is the atom it names. */
  predicate Sound(c: Codec, db: Db, w: WorldKey, k: string) {
    && k in db
    && GoodFrame(c, db, w, db[k])
    && AtomAt(c, db, w, k).Some?
    && AtomAt(c, db, w, k).value.id == ListedId(c, db, k)
    && AtomAt(c, db, w, k).value.world == w
  }

  ghost predicate WorldInv(c: Codec, db: Db, w: WorldKey) {
    var keys := ScanPrefix(db, LogPrefix(w));
    && (forall k :: k in keys ==> Canonical(w, k) && Sound(c, db, w, k))
    && (forall j, k :: j in keys && k in keys && ListedId(c, db, j) == ListedId(c, db, k) ==> j == k)
  }

  ghost predicate LogInv(c: Codec, db: Db) {
    forall w :: Plain(w) ==> WorldInv(c, db, w)
  }

  ghost predicate HasId(log: seq<Atom>, id: AtomId) {
    exists i :: 0 <= i < |log| && log[i].id == id
  }

  // ---------------------------------------------------------------- reading the log

  lemma {:induction false} LogOfConcat(c: Codec, db: Db, w: WorldKey, x: seq<string>, y: seq<string>)
    ensures LogOf(c, db, w, x + y) == LogOf(c, db, w, x) + LogOf(c, db, w, y)
  {
    if x == [] {
      assert x + y == y;
    } else {
      assert (x + y)[1..] == x[1..] + y;
      LogOfConcat(c, db, w, x[1..], y);
    }
  }

  lemma {:induction false} LogOfSame(c: Codec, db: Db, db': Db, w: WorldKey, keys: seq<string>)
    requires forall k :: k in keys ==> AtomAt(c, db', w, k) == AtomAt(c, db, w, k)
    ensures LogOf(c, db', w, keys) == LogOf(c, db, w, keys)
  {
    if keys != [] { LogOfSame(c, db, db', w, keys[1..]); }
  }

  /** When every key leads to an atom, the log lists those atoms position by position. */
  lemma {:induction false} LogOfAt(c: Codec, db: Db, w: WorldKey, keys: seq<string>)
    requires forall k :: k in keys ==> AtomAt(c, db, w, k).Some?
    ensures |LogOf(c, db, w, keys)| == |keys|
    ensures forall i :: 0 <= i < |keys| ==> LogOf(c, db, w, keys)[i] == AtomAt(c, db, w, keys[i]).value
  {
    if keys != [] { LogOfAt(c, db, w, keys[1..]); }
  }

  lemma LogAt(c: Codec, db: Db, w: WorldKey)
    requires WorldInv(c, db, w)
    ensures var keys := ScanPrefix(db, LogPrefix(w));
            |Log(c, db, w)| == |keys|
            && forall i :: 0 <= i < |keys| ==>
                 Log(c, db, w)[i] == AtomAt(c, db, w, keys[i]).value
                 && Log(c, db, w)[i].id == ListedId(c, db, keys[i])
                 && Log(c, db, w)[i].world == w
  {
    hide LogPrefix, ScanPrefix, AtomAt, LogOf, Canonical, GoodFrame;
    var keys := ScanPrefix(db, LogPrefix(w));
    LogOfAt(c, db, w, keys);
    forall i | 0 <= i < |keys|
      ensures Sound(c, db, w, keys[i])
    {
      assert keys[i] in keys;
    }
  }

  lemma LogAtomsAt(c: Codec, db: Db, w: WorldKey)
    requires WorldInv(c, db, w)
    ensures var keys := ScanPrefix(db, LogPrefix(w));
            |Log(c, db, w)| == |keys|
            && forall i :: 0 <= i < |keys| ==> AtomAt(c, db, w, keys[i]) == Some(Log(c, db, w)[i])
  {
    hide LogPrefix, ScanPrefix, AtomAt, Log, Canonical, GoodFrame;
    LogAt(c, db, w);
    var keys := ScanPrefix(db, LogPrefix(w));
    forall i | 0 <= i < |keys|
      ensures AtomAt(c, db, w, keys[i]).Some?
    {
      assert keys[i] in keys;
    }
  }

  /** The ids of a world's log are pairwise distinct. */
  lemma LogIdsDistinct(c: Codec, db: Db, w: WorldKey)
    requires WorldInv(c, db, w)
    ensures UniqueIds(Log(c, db, w))
  {
    LogAt(c, db, w);
    AscendingDistinct(ScanPrefix(db, LogPrefix(w)));
  }

  /** Every body that a frame among `keys` leads to decodes. */
  predicate BodiesDecode(c: Codec, db: Db, w: WorldKey, keys: seq<string>) {
    forall k :: k in keys && k in db && c.decodeFrame(db[k]).Some? ==>
      AtomKey(w, ListedId(c, db, k)) in db ==> AtomAt(c, db, w, k).Some?
  }

  /** One step of a scan, in terms of the atom the key leads to. */
  lemma ScanKeysStep(c: Codec, db: Db, w: WorldKey, f: AtomFilter, keys: seq<string>, got: seq<Atom>)
    requires keys != [] && (forall k :: k in keys ==> k in db) && BodiesDecode(c, db, w, keys)
    ensures var rest := ScanKeys(c, db, w, f, keys[1..], got);
            match AtomAt(c, db, w, keys[0])
            case None => ScanKeys(c, db, w, f, keys, got) == rest
            case Some(a) =>
              ScanKeys(c, db, w, f, keys, got)
              == if !MatchesFilter(a, f) then rest
                 else if f.limit.Some? && |got| + 1 >= f.limit.value then Ok(got + [a])
                 else ScanKeys(c, db, w, f, keys[1..], got + [a])
  {
    hide AtomKey, MatchesFilter;
    assert keys[0] in keys;
  }

  /** What a scan that has `got` already makes of the remaining keys. */
  function ScanRest(c: Codec, db: Db, w: WorldKey, f: AtomFilter, keys: seq<string>, got: seq<Atom>): seq<Atom> {
    Limited(f.limit, got + Keep((a: Atom) => MatchesFilter(a, f), LogOf(c, db, w, keys)))
  }

  lemma ScanRestStep(c: Codec, db: Db, w: WorldKey, f: AtomFilter, keys: seq<string>, got: seq<Atom>)
    requires keys != [] && (f.limit.Some? ==> |got| < (if f.limit.value == 0 then 1 else f.limit.value))
    ensures var rest := ScanRest(c, db, w, f, keys[1..], got);
            match AtomAt(c, db, w, keys[0])
            case None => ScanRest(c, db, w, f, keys, got) == rest
            case Some(a) =>
              ScanRest(c, db, w, f, keys, got)
              == if !MatchesFilter(a, f) then rest
                 else if f.limit.Some? && |got| + 1 >= f.limit.value then got + [a]
                 else ScanRest(c, db, w, f, keys[1..], got + [a])
  {
    hide AtomAt, MatchesFilter, Keep, Limited;
    var g := (a: Atom) => MatchesFilter(a, f);
    var rest := LogOf(c, db, w, keys[1..]);
    match AtomAt(c, db, w, keys[0]) {
      case None =>
        assert LogOf(c, db, w, keys) == rest;
      case Some(a) =>
        assert LogOf(c, db, w, keys) == [a] + rest;
        KeepCons(g, a, rest);
        if g(a) {
          assert got + ([a] + Keep(g, rest)) == (got + [a]) + Keep(g, rest);
          if f.limit.Some? && |got| + 1 >= f.limit.value { LimitedAt(f.limit, got + [a], Keep(g, rest)); }
        }
    }
  }

  lemma {:induction false} ScanKeysMeaning(
    c: Codec, db: Db, w: WorldKey, f: AtomFilter, keys: seq<string>, got: seq<Atom>)
    requires (forall k :: k in keys ==> k in db) && BodiesDecode(c, db, w, keys)
    requires f.limit.Some? ==> |got| < (if f.limit.value == 0 then 1 else f.limit.value)
    ensures ScanKeys(c, db, w, f, keys, got) == Ok(ScanRest(c, db, w, f, keys, got))
    decreases |keys|
  {
    hide AtomAt, MatchesFilter, BodiesDecode, ScanRest, ScanKeys;
    if keys == [] {
      ScanEnd(c, db, w, f, got);
    } else {
      ScanKeysStep(c, db, w, f, keys, got);
      ScanRestStep(c, db, w, f, keys, got);
      BodiesDecodeTail(c, db, w, keys);
      ScanKeysMeaning(c, db, w, f, keys[1..], got);
      var a := AtomAt(c, db, w, keys[0]);
      if a.Some? && MatchesFilter(a.value, f) && (f.limit.Some? ==> |got| + 1 < f.limit.value) {
        ScanKeysMeaning(c, db, w, f, keys[1..], got + [a.value]);
      }
    }
  }

  lemma ScanEnd(c: Codec, db: Db, w: WorldKey, f: AtomFilter, got: seq<Atom>)
    requires f.limit.Some? ==> |got| < (if f.limit.value == 0 then 1 else f.limit.value)
    ensures ScanKeys(c, db, w, f, [], got) == Ok(ScanRest(c, db, w, f, [], got))
  {
    hide MatchesFilter;
    KeepNone((a: Atom) => MatchesFilter(a, f), []);
    assert got + [] == got;
  }

  lemma BodiesDecodeTail(c: Codec, db: Db, w: WorldKey, keys: seq<string>)
    requires keys != [] && (forall k :: k in keys ==> k in db) && BodiesDecode(c, db, w, keys)
    ensures (forall k :: k in keys[1..] ==> k in db) && BodiesDecode(c, db, w, keys[1..])
  {
    hide AtomKey, AtomAt;
  }

  lemma LimitedAt(limit: Option<nat>, got: seq<Atom>, more: seq<Atom>)
    requires limit.Some? && |got| == (if limit.value == 0 then 1 else limit.value)
    ensures Limited(limit, got + more) == got
  {
  }

  /**
   A scan is the world's log filtered, then cut at the limit; a limit of zero still yields one atom.
   Unreadable frames and missing bodies are skipped; the one assumption is that stored bodies decode.
   */
  lemma ScanMeaning(c: Codec, db: Db, w: WorldKey, f: AtomFilter)
    requires BodiesDecode(c, db, w, ScanPrefix(db, LogPrefix(w)))
    ensures Scan(c, db, w, f) == Ok(FilteredLog(Log(c, db, w), w, f))
  {
    ScanKeysMeaning(c, db, w, f, ScanPrefix(db, LogPrefix(w)), []);
    var kept := Keep((a: Atom) => MatchesFilter(a, f), Log(c, db, w));
    assert [] + kept == kept;
  }

  // ---------------------------------------------------------------- frames conditions

  /** Nothing a reader of `w`'s log looks at differs between the two stores. */
  ghost predicate SameWorld(c: Codec, db: Db, db': Db, w: WorldKey) {
    && (forall k :: Below(LogPrefix(w), k) ==> (k in db <==> k in db') && (k in db ==> db[k] == db'[k]))
    && (forall id :: HasId(Log(c, db, w), id) ==>
          AtomKey(w, id) in db && AtomKey(w, id) in db' && db[AtomKey(w, id)] == db'[AtomKey(w, id)])
  }

  lemma SoundSame(c: Codec, db: Db, db': Db, w: WorldKey, k: string)
    requires Sound(c, db, w, k) && k in db' && db'[k] == db[k]
    requires var body := AtomKey(w, ListedId(c, db, k)); body in db' && body in db && db'[body] == db[body]
    ensures Sound(c, db', w, k) && AtomAt(c, db', w, k) == AtomAt(c, db, w, k)
    ensures ListedId(c, db', k) == ListedId(c, db, k)
  {
    hide AtomKey;
  }

  lemma WorldUnchanged(c: Codec, db: Db, db': Db, w: WorldKey)
    requires WorldInv(c, db, w) && SameWorld(c, db, db', w)
    ensures WorldInv(c, db', w) && Log(c, db', w) == Log(c, db, w) && NextSeq(db', w) == NextSeq(db, w)
    ensures ScanPrefix(db', LogPrefix(w)) == ScanPrefix(db, LogPrefix(w))
  {
    hide LogPrefix, AtomKey, SeqOf, Below, Sorted, ScanPrefix, Canonical, Sound, AtomAt, LogOf;
    var keys := ScanPrefix(db, LogPrefix(w));
    ScanSame(db, db', LogPrefix(w));
    LogAt(c, db, w);
    forall k | k in keys
      ensures db'[k] == db[k] && Sound(c, db', w, k) && AtomAt(c, db', w, k) == AtomAt(c, db, w, k)
    {
      var i :| 0 <= i < |keys| && keys[i] == k;
      assert HasId(Log(c, db, w), Log(c, db, w)[i].id);
      SoundSame(c, db, db', w, k);
    }
    LogOfSame(c, db, db', w, keys);
  }

  lemma FreshInScan(c: Codec, db: Db, w: WorldKey, id: AtomId, k: string)
    requires WorldInv(c, db, w) && !HasId(Log(c, db, w), id) && k in ScanPrefix(db, LogPrefix(w))
    ensures ListedId(c, db, k) != id
  {
    LogAt(c, db, w);
    var keys := ScanPrefix(db, LogPrefix(w));
    var i :| 0 <= i < |keys| && keys[i] == k;
    assert Log(c, db, w)[i].id == ListedId(c, db, k);
  }

  /** Every stored sequence number is below the next one. */
  lemma NextSeqIsNew(c: Codec, db: Db, w: WorldKey)
    requires WorldInv(c, db, w)
    ensures forall k :: k in ScanPrefix(db, LogPrefix(w)) ==> SeqOf(k).Some? && SeqOf(k).value < NextSeq(db, w)
    ensures NextSeq(db, w) < U64_LIMIT ==>
              LogKey(w, NextSeq(db, w)) !in db
              && forall k :: k in ScanPrefix(db, LogPrefix(w)) ==> LexLess(k, LogKey(w, NextSeq(db, w)))
  {
    hide SeqOf, LexLess, Sound, Sorted;
    var keys := ScanPrefix(db, LogPrefix(w));
    var n := NextSeq(db, w);
    forall k | k in keys
      ensures SeqOf(k).Some? && SeqOf(k).value < n
      ensures n < U64_LIMIT ==> LexLess(k, LogKey(w, n))
    {
      var i :| 0 <= i < |keys| && keys[i] == k;
      var last := keys[|keys| - 1];
      assert last in keys;
      if i < |keys| - 1 {
        LogKeyOrder(w, SeqOf(k).value, SeqOf(last).value);
      }
      if n < U64_LIMIT { LogKeyOrder(w, SeqOf(k).value, n); }
    }
    if n < U64_LIMIT && LogKey(w, n) in db {
      assert LogKey(w, n) in keys;
      SeqOfLogKey(w, n);
    }
  }
}
