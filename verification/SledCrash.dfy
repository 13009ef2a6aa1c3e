/**
 Crash recovery of appends. A crash keeps a prefix of the individual inserts; reopening repairs
 and rebuilds. The logs then hold what was there before plus a prefix of the interrupted batch.
 */
module SledCrash {
  import opened Prelude
  import opened Text
  import opened OrderedMap
  import opened Atoms
  import opened SledKeys
  import opened SledStore
  import opened SledLogs

  /** Storing a body that no frame names yet changes no log. */
  lemma PutBody(c: Codec, db: Db, w: WorldKey, id: AtomId, value: Value)
    requires LogInv(c, db) && Plain(w) && !HasId(Log(c, db, w), id)
    ensures LogInv(c, db[AtomKey(w, id) := value])
    ensures forall v :: Plain(v) ==>
              Log(c, db[AtomKey(w, id) := value], v) == Log(c, db, v)
              && NextSeq(db[AtomKey(w, id) := value], v) == NextSeq(db, v)
              && ScanPrefix(db[AtomKey(w, id) := value], LogPrefix(v)) == ScanPrefix(db, LogPrefix(v))
  {
    hide LogPrefix, AtomKey, LogKey, Below, Log, NextSeq, WorldInv;
    var db' := db[AtomKey(w, id) := value];
    forall v | Plain(v)
      ensures WorldInv(c, db', v) && Log(c, db', v) == Log(c, db, v) && NextSeq(db', v) == NextSeq(db, v)
      ensures ScanPrefix(db', LogPrefix(v)) == ScanPrefix(db, LogPrefix(v))
    {
      AtomKeyNotUnderLog(w, id, v);
      BodiesPresent(c, db, v);
      forall id' | HasId(Log(c, db, v), id')
        ensures AtomKey(v, id') != AtomKey(w, id)
      {
        if AtomKey(v, id') == AtomKey(w, id) { AtomKeyInjective(v, id', w, id); }
      }
      WorldUnchanged(c, db, db', v);
    }
  }

  lemma BodiesPresent(c: Codec, db: Db, w: WorldKey)
    requires WorldInv(c, db, w)
    ensures forall id :: HasId(Log(c, db, w), id) ==> AtomKey(w, id) in db
  {
    LogAt(c, db, w);
    forall id | HasId(Log(c, db, w), id)
      ensures AtomKey(w, id) in db
    {
      var i :| 0 <= i < |Log(c, db, w)| && Log(c, db, w)[i].id == id;
      assert ScanPrefix(db, LogPrefix(w))[i] in ScanPrefix(db, LogPrefix(w));
    }
  }

  /** The index is invisible to every log. */
  lemma PutIndex(c: Codec, db: Db, id: AtomId, value: Value)
    requires LogInv(c, db)
    ensures LogInv(c, db[IndexKey(id) := value])
    ensures forall v :: Plain(v) ==>
              Log(c, db[IndexKey(id) := value], v) == Log(c, db, v)
              && NextSeq(db[IndexKey(id) := value], v) == NextSeq(db, v)
              && ScanPrefix(db[IndexKey(id) := value], LogPrefix(v)) == ScanPrefix(db, LogPrefix(v))
  {
    OutsideIndexKeepsLogs(c, db, db[IndexKey(id) := value]);
  }

  lemma OutsideIndexKeepsLogs(c: Codec, db: Db, db': Db)
    requires LogInv(c, db) && SameOutsideIndex(db, db')
    ensures LogInv(c, db')
    ensures forall v :: Plain(v) ==> Log(c, db', v) == Log(c, db, v) && NextSeq(db', v) == NextSeq(db, v)
    ensures forall v :: Plain(v) ==> ScanPrefix(db', LogPrefix(v)) == ScanPrefix(db, LogPrefix(v))
  {
    hide LogPrefix, AtomKey, IndexKey, LogKey, Log, NextSeq, WorldInv;
    forall v | Plain(v)
      ensures WorldInv(c, db', v) && Log(c, db', v) == Log(c, db, v) && NextSeq(db', v) == NextSeq(db, v)
      ensures ScanPrefix(db', LogPrefix(v)) == ScanPrefix(db, LogPrefix(v))
    {
      forall k | Below(LogPrefix(v), k) ensures !Below(INDEX, k) { LogKeyNotIndex(v, k); }
      forall id ensures !Below(INDEX, AtomKey(v, id)) { AtomKeyNotIndex(v, id); }
      BodiesPresent(c, db, v);
      WorldUnchanged(c, db, db', v);
    }
  }

  lemma AtomKeyNotIndex(w: WorldKey, id: AtomId)
    ensures !Below(INDEX, AtomKey(w, id))
  {
    assert AtomKey(w, id)[0] == 'w';
  }

  /** A frame at the next sequence number, whose body is stored, extends its world's log by one. */
  lemma PutFrame(c: Codec, db: Db, w: WorldKey, a: Atom)
    requires c.RoundTrips() && LogInv(c, db) && Plain(w) && NextSeq(db, w) < U64_LIMIT
    requires a.world == w && !HasId(Log(c, db, w), a.id)
    requires AtomKey(w, a.id) in db && db[AtomKey(w, a.id)] == c.encodeAtom(a)
    ensures var db' := db[LogKey(w, NextSeq(db, w)) := c.encodeFrame(FrameFor(c, a))];
            && LogInv(c, db')
            && Log(c, db', w) == Log(c, db, w) + [a]
            && NextSeq(db', w) == NextSeq(db, w) + 1
            && ScanPrefix(db', LogPrefix(w)) == ScanPrefix(db, LogPrefix(w)) + [LogKey(w, NextSeq(db, w))]
            && forall v :: Plain(v) && v != w ==>
                 Log(c, db', v) == Log(c, db, v) && NextSeq(db', v) == NextSeq(db, v)
                 && ScanPrefix(db', LogPrefix(v)) == ScanPrefix(db, LogPrefix(v))
  {
    hide LogPrefix, AtomKey, LogKey, Below, Log, NextSeq, WorldInv, Plain, HasId;
    var n := NextSeq(db, w);
    var value := c.encodeFrame(FrameFor(c, a));
    PutFrameHere(c, db, w, a);
    forall v | Plain(v) && v != w
      ensures WorldInv(c, db[LogKey(w, n) := value], v)
      ensures Log(c, db[LogKey(w, n) := value], v) == Log(c, db, v)
      ensures NextSeq(db[LogKey(w, n) := value], v) == NextSeq(db, v)
      ensures ScanPrefix(db[LogKey(w, n) := value], LogPrefix(v)) == ScanPrefix(db, LogPrefix(v))
    {
      PutFrameElsewhere(c, db, w, n, value, v);
    }
  }

  lemma PutFrameElsewhere(c: Codec, db: Db, w: WorldKey, n: nat, value: Value, v: WorldKey)
    requires WorldInv(c, db, v) && Plain(w) && Plain(v) && v != w
    ensures var db' := db[LogKey(w, n) := value];
            WorldInv(c, db', v) && Log(c, db', v) == Log(c, db, v) && NextSeq(db', v) == NextSeq(db, v)
            && ScanPrefix(db', LogPrefix(v)) == ScanPrefix(db, LogPrefix(v))
  {
    hide LogPrefix, AtomKey, LogKey, Below, Log, NextSeq, WorldInv;
    LogKeyUnderPrefix(w, n, v);
    forall id ensures AtomKey(v, id) != LogKey(w, n) { KeysDistinct(v, id, w, n, id); }
    BodiesPresent(c, db, v);
    WorldUnchanged(c, db, db[LogKey(w, n) := value], v);
  }

  /** The new frame is sound and leads to the new atom. */
  lemma NewFrameSound(c: Codec, db: Db, w: WorldKey, a: Atom, n: nat)
    requires c.RoundTrips() && Plain(w) && a.world == w && n < U64_LIMIT
    requires AtomKey(w, a.id) in db && db[AtomKey(w, a.id)] == c.encodeAtom(a)
    ensures var key := LogKey(w, n);
            var db' := db[key := c.encodeFrame(FrameFor(c, a))];
            && Canonical(w, key) && Sound(c, db', w, key)
            && AtomAt(c, db', w, key) == Some(a) && ListedId(c, db', key) == a.id
  {
    hide AtomKey, LogKey, SeqOf, Plain;
    KeysDistinct(w, a.id, w, n, a.id);
    SeqOfLogKey(w, n);
  }

  /** An older frame of another id is as it was. */
  lemma OldFrameSound(c: Codec, db: Db, w: WorldKey, n: nat, value: Value, k: string)
    requires Plain(w) && Sound(c, db, w, k) && k != LogKey(w, n)
    ensures var db' := db[LogKey(w, n) := value];
            && k in db && c.decodeFrame(db[k]).Some? && k in db' && db'[k] == db[k]
            && AtomAt(c, db', w, k) == AtomAt(c, db, w, k)
            && Sound(c, db', w, k) && ListedId(c, db', k) == ListedId(c, db, k)
  {
    hide AtomKey, LogKey, Plain;
    KeysDistinct(w, ListedId(c, db, k), w, n, "");
  }

  lemma PutFrameHere(c: Codec, db: Db, w: WorldKey, a: Atom)
    requires c.RoundTrips() && WorldInv(c, db, w) && Plain(w) && NextSeq(db, w) < U64_LIMIT
    requires a.world == w && !HasId(Log(c, db, w), a.id)
    requires AtomKey(w, a.id) in db && db[AtomKey(w, a.id)] == c.encodeAtom(a)
    ensures var db' := db[LogKey(w, NextSeq(db, w)) := c.encodeFrame(FrameFor(c, a))];
            && WorldInv(c, db', w)
            && ScanPrefix(db', LogPrefix(w)) == ScanPrefix(db, LogPrefix(w)) + [LogKey(w, NextSeq(db, w))]
            && Log(c, db', w) == Log(c, db, w) + [a]
            && NextSeq(db', w) == NextSeq(db, w) + 1
  {
    hide LogPrefix, AtomKey, LogKey, Below, SeqOf, ScanPrefix, NextSeq, Sound, AtomAt, LogOf, Plain, HasId, Canonical, FrameFor;
    var n := NextSeq(db, w);
    var key := LogKey(w, n);
    var value := c.encodeFrame(FrameFor(c, a));
    var db' := db[key := value];
    var keys := ScanPrefix(db, LogPrefix(w));
    NextSeqIsNew(c, db, w);
    LogKeyUnderPrefix(w, n, w);
    ScanInsertLast(db, LogPrefix(w), key, value);
    NewFrameSound(c, db, w, a, n);
    forall k | k in keys
      ensures k in db && c.decodeFrame(db[k]).Some? && k in db' && db'[k] == db[k]
      ensures AtomAt(c, db', w, k) == AtomAt(c, db, w, k)
      ensures Sound(c, db', w, k) && ListedId(c, db', k) == ListedId(c, db, k) != a.id
    {
      FreshInScan(c, db, w, a.id, k);
      OldFrameSound(c, db, w, n, value, k);
    }
    LogOfSame(c, db, db', w, keys);
    LogOfConcat(c, db', w, keys, [key]);
    OneFrameLog(c, db', w, key, a);
    NextAfter(db', w, keys, key, n);
  }

  lemma OneFrameLog(c: Codec, db: Db, w: WorldKey, k: string, a: Atom)
    requires AtomAt(c, db, w, k) == Some(a)
    ensures LogOf(c, db, w, [k]) == [a]
  {
    hide AtomAt;
    assert LogOf(c, db, w, [k]) == Listing(Some(a)) + LogOf(c, db, w, [k][1..]);
  }

  lemma NextAfter(db: Db, w: WorldKey, keys: seq<string>, key: string, n: nat)
    requires n < U64_LIMIT && key == LogKey(w, n) && ScanPrefix(db, LogPrefix(w)) == keys + [key]
    ensures NextSeq(db, w) == n + 1
  {
    hide LogKey, LogPrefix, SeqOf, Sorted;
    SeqOfLogKey(w, n);
  }

  /** The inserts of one atom, one at a time: the log grows at the second of the three. */
  lemma AtomSteps(c: Codec, db: Db, w: WorldKey, a: Atom)
    requires c.RoundTrips() && LogInv(c, db) && Plain(w) && NextSeq(db, w) < U64_LIMIT
    requires a.world == w && !HasId(Log(c, db, w), a.id)
    ensures var n := NextSeq(db, w);
            var db1 := db[AtomKey(w, a.id) := c.encodeAtom(a)];
            var db2 := db1[LogKey(w, n) := c.encodeFrame(FrameFor(c, a))];
            var db3 := PutAtom(c, db, w, n, a);
            && LogInv(c, db1) && LogInv(c, db2) && LogInv(c, db3)
            && (forall v :: Plain(v) ==> Log(c, db1, v) == Log(c, db, v))
            && Log(c, db2, w) == Log(c, db3, w) == Log(c, db, w) + [a]
            && (forall v :: Plain(v) && v != w ==> Log(c, db2, v) == Log(c, db3, v) == Log(c, db, v))
            && NextSeq(db3, w) == n + 1
            && ScanPrefix(db3, LogPrefix(w)) == ScanPrefix(db, LogPrefix(w)) + [LogKey(w, n)]
            && (forall v :: Plain(v) && v != w ==>
                  NextSeq(db3, v) == NextSeq(db, v) && ScanPrefix(db3, LogPrefix(v)) == ScanPrefix(db, LogPrefix(v)))
  {
    hide LogPrefix, AtomKey, LogKey, IndexKey, Log, NextSeq, LogInv;
    var n := NextSeq(db, w);
    var db1 := db[AtomKey(w, a.id) := c.encodeAtom(a)];
    var db2 := db1[LogKey(w, n) := c.encodeFrame(FrameFor(c, a))];
    PutBody(c, db, w, a.id, c.encodeAtom(a));
    PutFrame(c, db1, w, a);
    PutIndex(c, db2, a.id, c.encodeIndex(IndexEntry(w, n)));
  }

  // ---------------------------------------------------------------- batches

  /** Distinct ids, none of them in the world's log, all atoms of that world, room for the numbers. */
  ghost predicate FreshBatch(c: Codec, db: Db, w: WorldKey, atoms: seq<Atom>) {
    && Plain(w)
    && NextSeq(db, w) + |atoms| <= U64_LIMIT
    && (forall a :: a in atoms ==> a.world == w && !HasId(Log(c, db, w), a.id))
    && UniqueIds(atoms)
  }

  /** How many atoms of a batch have their frame in after `n` inserts. */
  function Landed(n: nat): nat { (n + 1) / 3 }

  lemma LandedStep(log: seq<Atom>, atoms: seq<Atom>, n: nat)
    requires n <= 3 * |atoms|
    ensures Landed(n) <= |atoms|
    ensures n <= 1 ==> log + atoms[..Landed(n)] == log
    ensures n == 2 ==> log + atoms[..Landed(n)] == log + [atoms[0]]
    ensures n >= 3 ==> Landed(n - 3) <= |atoms[1..]|
                       && log + atoms[..Landed(n)] == log + [atoms[0]] + atoms[1..][..Landed(n - 3)]
  {
    if n >= 3 { assert atoms[..Landed(n)] == [atoms[0]] + atoms[1..][..Landed(n - 3)]; }
  }

  /** The first atom of a fresh batch may be appended, and the batch has three inserts for each atom. */
  lemma FreshHead(c: Codec, db: Db, w: WorldKey, atoms: seq<Atom>)
    requires FreshBatch(c, db, w, atoms)
    ensures |AppendWrites(c, w, NextSeq(db, w), atoms)| == 3 * |atoms|
    ensures atoms != [] ==>
              && Plain(w) && NextSeq(db, w) < U64_LIMIT && atoms[0].world == w && !HasId(Log(c, db, w), atoms[0].id)
              && AppendWrites(c, w, NextSeq(db, w), atoms)
                 == AtomWrites(c, w, NextSeq(db, w), atoms[0]) + AppendWrites(c, w, NextSeq(db, w) + 1, atoms[1..])
  {
    hide Log, NextSeq, Plain, HasId, AtomWrites;
    AppendWritesLength(c, w, NextSeq(db, w), atoms);
    if atoms != [] { assert atoms[0] in atoms; }
  }

  lemma FreshTail(c: Codec, db: Db, db': Db, w: WorldKey, atoms: seq<Atom>)
    requires FreshBatch(c, db, w, atoms) && atoms != []
    requires Log(c, db', w) == Log(c, db, w) + [atoms[0]] && NextSeq(db', w) == NextSeq(db, w) + 1
    ensures FreshBatch(c, db', w, atoms[1..])
  {
    hide Log, NextSeq, Plain;
    var rest := atoms[1..];
    forall a | a in rest
      ensures !HasId(Log(c, db', w), a.id)
    {
      var i :| 0 <= i < |rest| && rest[i] == a;
      assert atoms[0].id != atoms[i + 1].id;
      forall j | 0 <= j < |Log(c, db', w)|
        ensures Log(c, db', w)[j].id != a.id
      {
        if j < |Log(c, db, w)| { assert a in atoms && !HasId(Log(c, db, w), a.id); }
      }
    }
    forall i, j | 0 <= i < j < |rest| ensures rest[i].id != rest[j].id {
      assert atoms[i + 1].id != atoms[j + 1].id;
    }
  }

  /** One atom's part of a torn batch. */
  lemma TornFirst(c: Codec, db: Db, w: WorldKey, a: Atom, rest: seq<Write>, n: nat)
    requires c.RoundTrips() && LogInv(c, db) && Plain(w) && NextSeq(db, w) < U64_LIMIT
    requires a.world == w && !HasId(Log(c, db, w), a.id) && 1 <= n <= 3 + |rest|
    ensures var s := NextSeq(db, w);
            var cut := Apply(db, (AtomWrites(c, w, s, a) + rest)[..n]);
            var db3 := PutAtom(c, db, w, s, a);
            && (n <= 2 ==> LogInv(c, cut) && Log(c, cut, w) == if n == 1 then Log(c, db, w) else Log(c, db, w) + [a])
            && (n <= 2 ==> forall v :: Plain(v) && v != w ==> Log(c, cut, v) == Log(c, db, v))
            && (n >= 3 ==> cut == Apply(db3, rest[..n - 3]))
            && LogInv(c, db3) && Log(c, db3, w) == Log(c, db, w) + [a] && NextSeq(db3, w) == s + 1
            && (forall v :: Plain(v) && v != w ==> Log(c, db3, v) == Log(c, db, v))
  {
    hide LogPrefix, AtomKey, LogKey, IndexKey, Log, NextSeq, LogInv, Plain, HasId, PutAtom, AtomWrites, Apply;
    AtomSteps(c, db, w, a);
    TornAtom(c, db, w, NextSeq(db, w), a, rest, n);
  }

  /**
   Cut a batch append after any number of its inserts: every log is as before, and the target
   world has gained exactly the atoms whose frames were written, in order.
   */
  lemma {:induction false} TornAppend(c: Codec, db: Db, w: WorldKey, atoms: seq<Atom>, n: nat)
    requires c.RoundTrips() && LogInv(c, db) && FreshBatch(c, db, w, atoms) && n <= 3 * |atoms|
    ensures |AppendWrites(c, w, NextSeq(db, w), atoms)| == 3 * |atoms|
    ensures var cut := Apply(db, AppendWrites(c, w, NextSeq(db, w), atoms)[..n]);
            && LogInv(c, cut)
            && Log(c, cut, w) == Log(c, db, w) + atoms[..Landed(n)]
            && forall v :: Plain(v) && v != w ==> Log(c, cut, v) == Log(c, db, v)
    decreases |atoms|
  {
    hide LogPrefix, AtomKey, LogKey, IndexKey, Log, NextSeq, LogInv, Plain, HasId, PutAtom, AtomWrites, AppendWrites, FreshBatch, Landed;
    var s := NextSeq(db, w);
    var writes := AppendWrites(c, w, s, atoms);
    FreshHead(c, db, w, atoms);
    if n == 0 {
      LandedStep(Log(c, db, w), atoms, n);
      assert writes[..0] == [];
    } else {
      hide Apply;
      TornFirst(c, db, w, atoms[0], AppendWrites(c, w, s + 1, atoms[1..]), n);
      LandedStep(Log(c, db, w), atoms, n);
      if n >= 3 {
        var db3 := PutAtom(c, db, w, s, atoms[0]);
        FreshTail(c, db, db3, w, atoms);
        TornAppend(c, db3, w, atoms[1..], n - 3);
      }
    }
  }

  lemma TornAtom(c: Codec, db: Db, w: WorldKey, s: nat, a: Atom, rest: seq<Write>, n: nat)
    requires 1 <= n <= 3 + |rest|
    ensures var cut := Apply(db, (AtomWrites(c, w, s, a) + rest)[..n]);
            var db1 := db[AtomKey(w, a.id) := c.encodeAtom(a)];
            && (n == 1 ==> cut == db1)
            && (n == 2 ==> cut == db1[LogKey(w, s) := c.encodeFrame(FrameFor(c, a))])
            && (n >= 3 ==> cut == Apply(PutAtom(c, db, w, s, a), rest[..n - 3]))
  {
    hide AtomKey, LogKey, IndexKey;
    var first := AtomWrites(c, w, s, a);
    var writes := first + rest;
    assert first[..1] == [first[0]] && first[1..2] == [first[1]] && first[2..3] == [first[2]];
    assert first == [first[0]] + [first[1]] + [first[2]];
    ApplyConcat(db, [first[0]], [first[1]]);
    ApplyConcat(db, [first[0]] + [first[1]], [first[2]]);
    if n == 1 {
      assert writes[..1] == [first[0]];
    } else if n == 2 {
      assert writes[..2] == [first[0]] + [first[1]];
    } else {
      assert writes[..n] == first + rest[..n - 3];
      ApplyConcat(db, first, rest[..n - 3]);
    }
  }

  /** An append that completes extends its world's log by the whole batch. */
  lemma WholeAppend(c: Codec, db: Db, w: WorldKey, atoms: seq<Atom>)
    requires c.RoundTrips() && LogInv(c, db) && FreshBatch(c, db, w, atoms)
    ensures LogInv(c, Append(c, db, w, atoms))
    ensures Log(c, Append(c, db, w, atoms), w) == Log(c, db, w) + atoms
    ensures forall v :: Plain(v) && v != w ==> Log(c, Append(c, db, w, atoms), v) == Log(c, db, v)
  {
    hide Log, NextSeq, LogInv, Plain, HasId;
    TornAppend(c, db, w, atoms, 3 * |atoms|);
    var writes := AppendWrites(c, w, NextSeq(db, w), atoms);
    assert writes[..3 * |atoms|] == writes && atoms[..|atoms|] == atoms;
  }

  // ---------------------------------------------------------------- reopening

  lemma {:induction false} NoBadFrame(c: Codec, db: Db, w: WorldKey, keys: seq<string>)
    requires forall k :: k in keys ==> k in db && GoodFrame(c, db, w, db[k])
    ensures FirstBad(c, db, w, keys) == None
  {
    if keys != [] { NoBadFrame(c, db, w, keys[1..]); }
  }

  /** Repair finds nothing to remove in a store whose logs are sound. */
  lemma RepairNoOp(c: Codec, db: Db)
    requires LogInv(c, db)
    ensures Repair(c, db) == db
  {
    forall w | w in Worlds(db)
      ensures Doomed(c, db, w) == {}
    {
      SlashFreeIsPlain(w);
      NoBadFrame(c, db, w, ScanPrefix(db, LogPrefix(w)));
    }
    assert DoomedIn(c, db, Worlds(db)) == {};
  }

  /** Reopening changes nothing but the index. */
  lemma ReopenKeepsLogs(c: Codec, db: Db, db': Db)
    requires LogInv(c, db) && Reopened(c, db, db')
    ensures LogInv(c, db') && SameOutsideIndex(db, db')
    ensures forall v :: Plain(v) ==> Log(c, db', v) == Log(c, db, v) && NextSeq(db', v) == NextSeq(db, v)
  {
    RepairNoOp(c, db);
    OutsideIndexKeepsLogs(c, db, db');
  }

  /**
   Crash recovery: cut the append anywhere, reopen in any world order, and every log is its
   pre-call self plus, in the target world, a prefix of the batch.
   */
  lemma CrashRecovery(c: Codec, db: Db, w: WorldKey, atoms: seq<Atom>, n: nat, db': Db)
    requires c.RoundTrips() && LogInv(c, db) && FreshBatch(c, db, w, atoms) && n <= 3 * |atoms|
    requires n <= |AppendWrites(c, w, NextSeq(db, w), atoms)|
    requires Reopened(c, Apply(db, AppendWrites(c, w, NextSeq(db, w), atoms)[..n]), db')
    ensures LogInv(c, db')
    ensures Log(c, db', w) == Log(c, db, w) + atoms[..Landed(n)]
    ensures forall v :: Plain(v) && v != w ==> Log(c, db', v) == Log(c, db, v)
  {
    hide Log, NextSeq, LogInv, Plain, HasId, Reopened;
    TornAppend(c, db, w, atoms, n);
    ReopenKeepsLogs(c, Apply(db, AppendWrites(c, w, NextSeq(db, w), atoms)[..n]), db');
  }
}
