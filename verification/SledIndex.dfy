/**
 The id index, kept up to date by every append and delete, against the index a rebuild computes
 from the logs. The two are the same map exactly when no logged world has a slash in its name.
 */
module SledIndex {
  import opened Prelude
  import opened Text
  import opened OrderedMap
  import opened Atoms
  import opened SledKeys
  import opened SledStore
  import opened SledStorage
  import opened SledLogs
  import opened SledCrash
  import opened SledRepair
  import opened SledDelete

  /** The entry `e` is a frame of the log of a plain world. */
  ghost predicate Holds(db: Db, e: (WorldKey, string)) {
    Plain(e.0) && e.1 in ScanPrefix(db, LogPrefix(e.0))
  }

  /** The index has an entry for exactly the logged ids, and it names a frame of that id. */
  ghost predicate IndexInv(c: Codec, db: Db) {
    && (forall id, e :: Holds(db, e) && Names(c, db, e, id) ==> IndexKey(id) in db)
    && (forall id :: IndexKey(id) in db ==>
          exists e :: Holds(db, e) && Names(c, db, e, id) && EntryValue(c, e, db[IndexKey(id)]))
  }

  /** No id is logged twice, in one world or in two. */
  ghost predicate GloballyUnique(c: Codec, db: Db) {
    forall id, e, f :: Holds(db, e) && Holds(db, f) && Names(c, db, e, id) && Names(c, db, f, id) ==> e == f
  }

  /** Some atom of some plain world's log carries the id. */
  ghost predicate LoggedAnywhere(c: Codec, db: Db, id: AtomId) {
    exists w :: Plain(w) && HasId(Log(c, db, w), id)
  }

  lemma HoldsIsLogged(c: Codec, db: Db, e: (WorldKey, string))
    requires LogInv(c, db) && Holds(db, e)
    ensures Listed(c, db, e.0, e.1) && Names(c, db, e, ListedId(c, db, e.1))
    ensures HasId(Log(c, db, e.0), ListedId(c, db, e.1)) && Canonical(e.0, e.1)
  {
    assert WorldInv(c, db, e.0);
    LogAt(c, db, e.0);
    var keys := ScanPrefix(db, LogPrefix(e.0));
    var i :| 0 <= i < |keys| && keys[i] == e.1;
    assert Log(c, db, e.0)[i].id == ListedId(c, db, e.1);
  }

  lemma LoggedIsHeld(c: Codec, db: Db, w: WorldKey, id: AtomId) returns (k: string)
    requires LogInv(c, db) && Plain(w) && HasId(Log(c, db, w), id)
    ensures Holds(db, (w, k)) && Names(c, db, (w, k), id)
  {
    assert WorldInv(c, db, w);
    LogAt(c, db, w);
    var i :| 0 <= i < |Log(c, db, w)| && Log(c, db, w)[i].id == id;
    k := ScanPrefix(db, LogPrefix(w))[i];
    HoldsIsLogged(c, db, (w, k));
  }

  /** The frames that a rebuild visits are the logged frames of slash-free worlds. */
  lemma EntriesAreSlashFree(c: Codec, db: Db, e: (WorldKey, string))
    requires LogInv(c, db)
    ensures e in Entries(c, db) <==> Holds(db, e) && '/' !in e.0
  {
    if '/' !in e.0 {
      SlashFreeIsPlain(e.0);
      if Holds(db, e) {
        HoldsIsLogged(c, db, e);
        WorldOfLogKey(e.0, SeqOf(e.1).value);
        WorldKeyListed(db, e);
      }
    }
  }

  lemma WorldKeyListed(db: Db, e: (WorldKey, string))
    requires e.1 in db && Below(LogPrefix(e.0), e.1) && WorldOf(e.1) == Some(e.0)
    ensures e.0 in Worlds(db)
  {
    assert LogPrefix(e.0)[..|WORLD|] == WORLD;
    assert Below(WORLD, e.1);
  }

  lemma SameMap(db: Db, db': Db)
    requires SameOutsideIndex(db, db')
    requires forall id :: IndexKey(id) in db <==> IndexKey(id) in db'
    requires forall id :: IndexKey(id) in db ==> db[IndexKey(id)] == db'[IndexKey(id)]
    ensures db == db'
  {
    forall k
      ensures (k in db <==> k in db') && (k in db ==> db[k] == db'[k])
    {
      if Below(INDEX, k) { assert k == IndexKey(k[|INDEX|..]); }
    }
  }

  /**
   The maintained index is the rebuilt one, as a map and for every visiting order, if and only if
   every logged world has a slash-free name. Tenant worlds such as `tenant:acme/alpha` do not.
   */
  lemma IncrementalIsRebuilt(c: Codec, db: Db, db': Db)
    requires LogInv(c, db) && IndexInv(c, db) && GloballyUnique(c, db) && Rebuilt(c, db, db')
    ensures db' == db <==> forall e :: Holds(db, e) ==> '/' !in e.0
  {
    hide LogInv, IndexKey, LogPrefix, Entries, Plain, Holds, EntryValue;
    if forall e :: Holds(db, e) ==> '/' !in e.0 {
      forall id
        ensures IndexKey(id) in db <==> IndexKey(id) in db'
        ensures IndexKey(id) in db ==> db[IndexKey(id)] == db'[IndexKey(id)]
      {
        if IndexKey(id) in db {
          var e :| Holds(db, e) && Names(c, db, e, id) && EntryValue(c, e, db[IndexKey(id)]);
          EntriesAreSlashFree(c, db, e);
          assert IndexKey(id) in db';
        }
        if IndexKey(id) in db' {
          var f :| f in Entries(c, db) && Names(c, db, f, id) && EntryValue(c, f, db'[IndexKey(id)]);
          EntriesAreSlashFree(c, db, f);
          assert IndexKey(id) in db;
          SameEntrySameValue(c, db, id, f, db'[IndexKey(id)]);
        }
      }
      SameMap(db, db');
    } else {
      var e :| Holds(db, e) && '/' in e.0;
      HoldsIsLogged(c, db, e);
      var id := ListedId(c, db, e.1);
      if IndexKey(id) in db' {
        var f :| f in Entries(c, db) && Names(c, db, f, id) && EntryValue(c, f, db'[IndexKey(id)]);
        EntriesAreSlashFree(c, db, f);
      }
    }
  }

  lemma SameEntrySameValue(c: Codec, db: Db, id: AtomId, f: (WorldKey, string), v: Value)
    requires IndexInv(c, db) && GloballyUnique(c, db) && IndexKey(id) in db
    requires Holds(db, f) && Names(c, db, f, id) && EntryValue(c, f, v)
    ensures db[IndexKey(id)] == v
  {
    var e :| Holds(db, e) && Names(c, db, e, id) && EntryValue(c, e, db[IndexKey(id)]);
    assert e == f;
  }

  /** The index entry of `id` decodes to a slash-free world and a log position holding that atom. */
  ghost predicate PointsTo(c: Codec, db: Db, id: AtomId, e: IndexEntry) {
    && '/' !in e.world
    && IndexKey(id) in db && c.decodeIndex(db[IndexKey(id)]) == Some(e)
    && AtomAt(c, db, e.world, LogKey(e.world, e.seqNo)).Some?
    && AtomAt(c, db, e.world, LogKey(e.world, e.seqNo)).value.id == id
  }

  /**
   After reopening a sound store, the index holds exactly the ids logged in slash-free worlds, and
   each entry leads to its atom.
   */
  lemma ReopenedIndex(c: Codec, db: Db, db': Db, id: AtomId)
    requires c.RoundTrips() && LogInv(c, db) && Reopened(c, db, db')
    ensures IndexKey(id) in db' <==> exists w :: '/' !in w && HasId(Log(c, db', w), id)
    ensures IndexKey(id) in db' ==> exists e :: PointsTo(c, db', id, e)
  {
    hide LogInv, IndexKey, LogPrefix, LogKey, Log, Entries, Plain, Repair, AtomAt, Names, Holds;
    ReopenKeepsLogs(c, db, db');
    RepairNoOp(c, db);
    if w :| '/' !in w && HasId(Log(c, db', w), id) {
      SlashFreeIsPlain(w);
      var k := LoggedIsHeld(c, db, w, id);
      EntriesAreSlashFree(c, db, (w, k));
    }
    if IndexKey(id) in db' {
      var e :| e in Entries(c, db) && Names(c, db, e, id) && EntryValue(c, e, db'[IndexKey(id)]);
      EntriesAreSlashFree(c, db, e);
      SlashFreeIsPlain(e.0);
      HoldsIsLogged(c, db, e);
      EntryReads(c, db, db', e, id);
      assert PointsTo(c, db', id, IndexEntry(e.0, SeqOf(e.1).value));
    }
  }

  lemma EntryReads(c: Codec, db: Db, db': Db, e: (WorldKey, string), id: AtomId)
    requires LogInv(c, db) && Holds(db, e) && Names(c, db, e, id) && SameOutsideIndex(db, db')
    ensures AtomAt(c, db', e.0, e.1).Some? && AtomAt(c, db', e.0, e.1).value.id == id
    ensures HasId(Log(c, db, e.0), id)
  {
    HoldsIsLogged(c, db, e);
    assert WorldInv(c, db, e.0);
    assert Sound(c, db, e.0, e.1);
    LogKeyNotIndex(e.0, e.1);
    AtomKeyNotIndex(e.0, ListedId(c, db, e.1));
  }

  // ---------------------------------------------------------------- reopening restores it

  /** Whether ids are globally unique can be read off the logs. */
  lemma UniqueByLogs(c: Codec, db: Db)
    requires LogInv(c, db)
    requires forall v, w, id :: Plain(v) && Plain(w) && HasId(Log(c, db, v), id) && HasId(Log(c, db, w), id) ==> v == w
    ensures GloballyUnique(c, db)
  {
    hide LogPrefix, Log, Plain, HasId, AtomAt, Sound, Canonical;
    forall id, e, f | Holds(db, e) && Holds(db, f) && Names(c, db, e, id) && Names(c, db, f, id)
      ensures e == f
    {
      NamedIsLogged(c, db, e, id);
      NamedIsLogged(c, db, f, id);
      assert e.0 == f.0 && WorldInv(c, db, e.0);
      assert ListedId(c, db, e.1) == ListedId(c, db, f.1);
    }
  }

  /** No id is logged in two worlds. */
  lemma UniqueInLogs(c: Codec, db: Db, v: WorldKey, w: WorldKey, id: AtomId)
    requires LogInv(c, db) && GloballyUnique(c, db) && Plain(v) && Plain(w)
    requires HasId(Log(c, db, v), id) && HasId(Log(c, db, w), id)
    ensures v == w
  {
    var j := LoggedIsHeld(c, db, v, id);
    var k := LoggedIsHeld(c, db, w, id);
    assert (v, j) == (w, k);
  }

  /**
   When what a reopening leaves is sound and every logged world is slash-free, its index is exact,
   whatever the reopening found.
   */
  lemma ReopenRestoresIndex(c: Codec, db: Db, db': Db)
    requires LogInv(c, db') && Reopened(c, db, db')
    requires forall e :: Holds(db', e) ==> '/' !in e.0
    ensures IndexInv(c, db')
  {
    hide LogInv, IndexKey, LogPrefix, Log, Entries, Plain, Repair, EntryValue, Holds;
    var mid := Repair(c, db);
    OutsideIndexKeepsLogs(c, db', mid);
    forall e, id
      ensures Holds(db', e) <==> Holds(mid, e)
      ensures Holds(mid, e) ==> (Names(c, db', e, id) <==> Names(c, mid, e, id))
    {
      HoldsOutsideIndex(c, mid, db', e, id);
    }
    forall id, e | Holds(db', e) && Names(c, db', e, id)
      ensures IndexKey(id) in db'
    {
      EntriesAreSlashFree(c, mid, e);
    }
    forall id | IndexKey(id) in db'
      ensures exists e :: Holds(db', e) && Names(c, db', e, id) && EntryValue(c, e, db'[IndexKey(id)])
    {
      var e :| e in Entries(c, mid) && Names(c, mid, e, id) && EntryValue(c, e, db'[IndexKey(id)]);
      EntriesAreSlashFree(c, mid, e);
    }
  }

  lemma SameEntries(c: Codec, db: Db, db': Db)
    requires SameOutsideIndex(db, db')
    ensures Worlds(db') == Worlds(db) && Entries(c, db') == Entries(c, db)
    ensures forall e, id :: e in Entries(c, db) ==> (Names(c, db', e, id) <==> Names(c, db, e, id))
  {
    hide SeqOf, WorldOf, LogPrefix;
    forall k | Below(WORLD, k) ensures !Below(INDEX, k) { assert k[0] == 'w'; }
    assert Worlds(db') == Worlds(db);
    forall w, k | Below(LogPrefix(w), k) ensures !Below(INDEX, k) { LogKeyNotIndex(w, k); }
    assert forall w, k :: Listed(c, db', w, k) <==> Listed(c, db, w, k);
  }

  lemma SameRepair(c: Codec, db: Db, db': Db)
    requires SameOutsideIndex(db, db')
    ensures SameOutsideIndex(Repair(c, db), Repair(c, db'))
  {
    hide LogPrefix, AtomKey, SeqOf, WorldOf, FirstBad, Worlds;
    SameEntries(c, db, db');
    forall w
      ensures Doomed(c, db', w) == Doomed(c, db, w)
    {
      LogsOutsideIndex(db, db', w);
      forall k | Below(LogPrefix(w), k) ensures !Below(INDEX, k) { LogKeyNotIndex(w, k); }
      forall id ensures !Below(INDEX, AtomKey(w, id)) { AtomKeyNotIndex(w, id); }
      FirstBadSame(c, db, db', w, ScanPrefix(db, LogPrefix(w)));
    }
    assert DoomedIn(c, db', Worlds(db')) == DoomedIn(c, db, Worlds(db));
  }

  /**
   What a reopening leaves does not depend on the index it finds: a crash while the index is being
   cleared or rebuilt costs nothing that the next reopening does not restore.
   */
  lemma ReopenIgnoresIndex(c: Codec, db: Db, other: Db, db': Db)
    requires SameOutsideIndex(db, other)
    ensures Reopened(c, db, db') <==> Reopened(c, other, db')
  {
    hide Repair, Entries, EntryValue, Names;
    SameRepair(c, db, other);
    SameEntries(c, Repair(c, db), Repair(c, other));
  }

  lemma HoldsOutsideIndex(c: Codec, db: Db, db': Db, e: (WorldKey, string), id: AtomId)
    requires SameOutsideIndex(db, db')
    ensures Holds(db', e) <==> Holds(db, e)
    ensures Holds(db, e) ==> (Names(c, db', e, id) <==> Names(c, db, e, id))
  {
    hide LogPrefix, Plain;
    LogsOutsideIndex(db, db', e.0);
    if Holds(db, e) { LogKeyNotIndex(e.0, e.1); }
  }

  // ---------------------------------------------------------------- the index follows every operation

  /** Appending an atom adds one frame, and leaves every older frame as it was. */
  lemma HoldsAfterPut(c: Codec, db: Db, w: WorldKey, a: Atom, e: (WorldKey, string))
    requires c.RoundTrips() && LogInv(c, db) && Plain(w) && NextSeq(db, w) < U64_LIMIT
    requires a.world == w && !HasId(Log(c, db, w), a.id)
    ensures var n := NextSeq(db, w);
            var db3 := PutAtom(c, db, w, n, a);
            && (Holds(db3, e) <==> Holds(db, e) || e == (w, LogKey(w, n)))
            && (Holds(db, e) ==> e.1 in db && e.1 in db3 && db3[e.1] == db[e.1] && e.1 != LogKey(w, n))
            && Names(c, db3, (w, LogKey(w, n)), a.id)
            && (forall id :: Names(c, db3, (w, LogKey(w, n)), id) ==> id == a.id)
            && EntryValue(c, (w, LogKey(w, n)), db3[IndexKey(a.id)])
  {
    hide LogInv, IndexKey, LogPrefix, LogKey, AtomKey, Plain, Canonical, Sound, Log, NextSeq, SeqOf, Below;
    var n := NextSeq(db, w);
    AtomSteps(c, db, w, a);
    KeysDistinct(w, a.id, w, n, a.id);
    SeqOfLogKey(w, n);
    NewKeyIsNew(c, db, w);
    if Holds(db, e) {
      HoldsIsLogged(c, db, e);
      AtomKeyNotUnderLog(w, a.id, e.0);
      IndexKeyApart(a.id, e.0);
    }
  }

  lemma NewKeyIsNew(c: Codec, db: Db, w: WorldKey)
    requires LogInv(c, db) && Plain(w) && NextSeq(db, w) < U64_LIMIT
    ensures LogKey(w, NextSeq(db, w)) !in db
  {
    assert WorldInv(c, db, w);
    NextSeqIsNew(c, db, w);
  }

  lemma PutAtomKeepsIndex(c: Codec, db: Db, w: WorldKey, a: Atom)
    requires c.RoundTrips() && LogInv(c, db) && Plain(w) && NextSeq(db, w) < U64_LIMIT
    requires IndexInv(c, db) && GloballyUnique(c, db)
    requires a.world == w && !LoggedAnywhere(c, db, a.id)
    ensures IndexInv(c, PutAtom(c, db, w, NextSeq(db, w), a))
    ensures GloballyUnique(c, PutAtom(c, db, w, NextSeq(db, w), a))
  {
    hide LogInv, IndexKey, LogPrefix, LogKey, AtomKey, Plain, Holds, Log, NextSeq, PutAtom, Names, EntryValue, HasId;
    var n := NextSeq(db, w);
    var db3 := PutAtom(c, db, w, n, a);
    var added := (w, LogKey(w, n));
    HoldsAfterPut(c, db, w, a, added);
    forall e, id | Holds(db, e)
      ensures Holds(db3, e) && e != added && (Names(c, db3, e, id) <==> Names(c, db, e, id))
      ensures Names(c, db, e, id) ==> id != a.id
    {
      HoldsAfterPut(c, db, w, a, e);
      NamesSame(c, db, db3, e, id);
      if Names(c, db, e, id) { NamedIsLogged(c, db, e, id); }
    }
    forall e | Holds(db3, e) && e != added ensures Holds(db, e) { HoldsAfterPut(c, db, w, a, e); }
    PutAtomIndexKeys(c, db, w, n, a);
    forall id | IndexKey(id) in db3
      ensures exists e :: Holds(db3, e) && Names(c, db3, e, id) && EntryValue(c, e, db3[IndexKey(id)])
    {
      if id != a.id {
        var e :| Holds(db, e) && Names(c, db, e, id) && EntryValue(c, e, db[IndexKey(id)]);
        assert Holds(db3, e);
      }
    }
  }

  lemma NamesSame(c: Codec, db: Db, db': Db, e: (WorldKey, string), id: AtomId)
    requires e.1 in db && e.1 in db' && db'[e.1] == db[e.1]
    ensures Names(c, db', e, id) <==> Names(c, db, e, id)
  {
  }

  lemma NamedIsLogged(c: Codec, db: Db, e: (WorldKey, string), id: AtomId)
    requires LogInv(c, db) && Holds(db, e) && Names(c, db, e, id)
    ensures LoggedAnywhere(c, db, id) && HasId(Log(c, db, e.0), id)
  {
    HoldsIsLogged(c, db, e);
  }

  lemma PutAtomIndexKeys(c: Codec, db: Db, w: WorldKey, n: nat, a: Atom)
    requires Plain(w)
    ensures forall id :: IndexKey(id) in PutAtom(c, db, w, n, a) <==> id == a.id || IndexKey(id) in db
    ensures forall id :: id != a.id && IndexKey(id) in db ==>
              PutAtom(c, db, w, n, a)[IndexKey(id)] == db[IndexKey(id)]
  {
    hide IndexKey, LogKey, AtomKey, Plain;
    forall id
      ensures IndexKey(id) != AtomKey(w, a.id) && IndexKey(id) != LogKey(w, n)
      ensures IndexKey(id) == IndexKey(a.id) ==> id == a.id
    {
      KeysDistinct(w, a.id, w, n, id);
      if IndexKey(id) == IndexKey(a.id) { IndexKeyInjective(id, a.id); }
    }
  }

  lemma LoggedAfterPut(c: Codec, db: Db, db': Db, w: WorldKey, a: Atom, id: AtomId)
    requires Log(c, db', w) == Log(c, db, w) + [a]
    requires forall v :: Plain(v) && v != w ==> Log(c, db', v) == Log(c, db, v)
    ensures LoggedAnywhere(c, db', id) ==> LoggedAnywhere(c, db, id) || id == a.id
  {
    hide Log, Plain;
    if LoggedAnywhere(c, db', id) && id != a.id {
      var v :| Plain(v) && HasId(Log(c, db', v), id);
      var i :| 0 <= i < |Log(c, db', v)| && Log(c, db', v)[i].id == id;
      assert Log(c, db, v)[i].id == id;
      assert HasId(Log(c, db, v), id);
    }
  }

  lemma {:induction false} AppendKeepsIndex(c: Codec, db: Db, w: WorldKey, atoms: seq<Atom>)
    requires c.RoundTrips() && LogInv(c, db) && FreshBatch(c, db, w, atoms)
    requires IndexInv(c, db) && GloballyUnique(c, db)
    requires forall a :: a in atoms ==> !LoggedAnywhere(c, db, a.id)
    ensures IndexInv(c, Append(c, db, w, atoms)) && GloballyUnique(c, Append(c, db, w, atoms))
    decreases |atoms|
  {
    hide LogInv, LogPrefix, LogKey, AtomKey, IndexKey, Plain, Log, NextSeq, PutAtom, IndexInv, GloballyUnique, AppendWrites;
    var n := NextSeq(db, w);
    if atoms == [] {
      AppendStop(c, db, w, n, atoms);
    } else {
      var db3 := PutAtom(c, db, w, n, atoms[0]);
      AppendStep(c, db, w, n, atoms);
      AtomSteps(c, db, w, atoms[0]);
      FreshTail(c, db, db3, w, atoms);
      PutAtomKeepsIndex(c, db, w, atoms[0]);
      forall a | a in atoms[1..]
        ensures !LoggedAnywhere(c, db3, a.id)
      {
        var i :| 0 <= i < |atoms[1..]| && atoms[1..][i] == a;
        assert atoms[0].id != atoms[i + 1].id && a in atoms;
        LoggedAfterPut(c, db, db3, w, atoms[0], a.id);
      }
      AppendKeepsIndex(c, db3, w, atoms[1..]);
    }
  }

  /** Every id that is logged at all is logged in `w`: a deletion names ids of its own world. */
  ghost predicate OwnIds(c: Codec, db: Db, w: WorldKey, ids: seq<AtomId>) {
    forall id, v :: id in ids && Plain(v) && HasId(Log(c, db, v), id) ==> v == w
  }

  lemma DeleteIndexKeys(c: Codec, db: Db, w: WorldKey, ids: seq<AtomId>)
    requires Plain(w)
    ensures forall id :: IndexKey(id) in Delete(c, db, w, ids) <==> IndexKey(id) in db && id !in ids
  {
    hide LogPrefix, AtomKey, IndexKey, Below, FrameRemovals;
    FramesNamed(c, db, w, ids);
    FramesBelow(c, db, w, ids);
    forall id
      ensures IndexKey(id) in Removals(c, db, w, ids) <==> id in ids
    {
      IndexKeyApart(id, w);
      if IndexKey(id) in BodyRemovals(w, ids) {
        var i :| 0 <= i < |ids| && (IndexKey(id) == AtomKey(w, ids[i]) || IndexKey(id) == IndexKey(ids[i]));
        KeysDistinct(w, ids[i], w, 0, id);
        IndexKeyInjective(id, ids[i]);
      }
      if id in ids {
        var i :| 0 <= i < |ids| && ids[i] == id;
        assert IndexKey(id) in BodyRemovals(w, ids);
      }
    }
  }

  lemma HoldsAfterDelete(c: Codec, db: Db, w: WorldKey, ids: seq<AtomId>, e: (WorldKey, string))
    requires LogInv(c, db) && Plain(w)
    ensures var db' := Delete(c, db, w, ids);
            && (Holds(db', e) <==> Holds(db, e) && !(e.0 == w && FrameNames(c, db, ids, e.1)))
            && (Holds(db', e) ==> e.1 in db && e.1 in db' && db'[e.1] == db[e.1])
  {
    hide LogInv, LogPrefix, AtomKey, IndexKey, LogKey, Below, FrameRemovals, FrameNames, Log, GoodKey, AtomAt, Survives;
    var all := Removals(c, db, w, ids);
    assert all[..|all|] == all;
    assert Delete(c, db, w, ids) == db - Gone(c, db, w, ids, |all|);
    if Plain(e.0) {
      if e.0 == w {
        DeleteKeys(c, db, w, ids);
      } else {
        OtherWorlds(c, db, w, ids, |all|, e.0);
      }
    }
  }

  lemma DeleteKeepsIndex(c: Codec, db: Db, w: WorldKey, ids: seq<AtomId>)
    requires LogInv(c, db) && Plain(w) && OwnIds(c, db, w, ids)
    requires IndexInv(c, db) && GloballyUnique(c, db)
    ensures IndexInv(c, Delete(c, db, w, ids)) && GloballyUnique(c, Delete(c, db, w, ids))
  {
    hide LogInv, LogPrefix, LogKey, AtomKey, IndexKey, Plain, Log, Delete, Holds, EntryValue, Names;
    var db' := Delete(c, db, w, ids);
    DeleteIndexKeys(c, db, w, ids);
    forall e, id | Holds(db', e)
      ensures Holds(db, e) && (Names(c, db', e, id) <==> Names(c, db, e, id))
      ensures Names(c, db, e, id) ==> id !in ids
    {
      HoldsAfterDelete(c, db, w, ids, e);
      NamesSame(c, db, db', e, id);
      if Names(c, db, e, id) { SurvivorNotDeleted(c, db, w, ids, e, id); }
    }
    forall id | IndexKey(id) in db'
      ensures db'[IndexKey(id)] == db[IndexKey(id)]
      ensures exists e :: Holds(db', e) && Names(c, db', e, id) && EntryValue(c, e, db'[IndexKey(id)])
    {
      DeleteSubmap(c, db, w, ids, IndexKey(id));
      var e :| Holds(db, e) && Names(c, db, e, id) && EntryValue(c, e, db[IndexKey(id)]);
      NotNamedStays(c, db, ids, e, id);
      HoldsAfterDelete(c, db, w, ids, e);
      NamesSame(c, db, db', e, id);
    }
  }

  lemma NotNamedStays(c: Codec, db: Db, ids: seq<AtomId>, e: (WorldKey, string), id: AtomId)
    requires Names(c, db, e, id)
    ensures FrameNames(c, db, ids, e.1) <==> id in ids
  {
  }

  lemma SurvivorNotDeleted(c: Codec, db: Db, w: WorldKey, ids: seq<AtomId>, e: (WorldKey, string), id: AtomId)
    requires LogInv(c, db) && OwnIds(c, db, w, ids) && Holds(db, e) && Names(c, db, e, id)
    requires !(e.0 == w && FrameNames(c, db, ids, e.1))
    ensures id !in ids
  {
    NamedIsLogged(c, db, e, id);
    NotNamedStays(c, db, ids, e, id);
  }
}
