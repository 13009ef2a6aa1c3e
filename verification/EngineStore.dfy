/**
 The engine's logs on top of the key/value store. The engine model keeps a log of atoms per world;
 the store keeps one flat map. What the engine reads there, by scan or by id, is what its own model
 says; and appending, deleting and ingesting there are what they are on its logs.
 */
module EngineStore {
  import opened Prelude
  import opened Text
  import opened OrderedMap
  import opened Atoms
  import opened SledKeys
  import opened SledStore
  import opened SledStorage
  import opened SledLogs
  import opened SledCrash
  import opened SledDelete
  import opened SledIndex
  import opened SledLookup
  import opened SledOrphans
  import SledRuns
  import P = Policy
  import Gc
  import E = Engine

  /** The store holds exactly the engine's logs. */
  ghost predicate Represents(c: Codec, db: Db, logs: P.Logs) {
    && (forall w :: w in logs ==> Plain(w))
    && (forall w :: Plain(w) ==> P.LogOf(logs, w) == Log(c, db, w))
  }

  /** What holds of a store as long as it is neither damaged nor reopened. */
  ghost predicate Intact(c: Codec, db: Db) {
    LogInv(c, db) && IndexInv(c, db) && GloballyUnique(c, db) && NoOrphans(c, db)
  }

  lemma IntactHasLogs(c: Codec, db: Db)
    requires Intact(c, db)
    ensures LogInv(c, db)
  {
    hide LogInv;
  }

  lemma UniqueRepresented(c: Codec, db: Db, logs: P.Logs)
    requires LogInv(c, db) && Represents(c, db, logs)
    ensures Gc.UniqueLogs(logs)
  {
    forall w | w in logs
      ensures UniqueIds(logs[w])
    {
      assert WorldInv(c, db, w);
      LogIdsDistinct(c, db, w);
      assert P.LogOf(logs, w) == Log(c, db, w);
    }
  }

  lemma EmptyIntact(c: Codec)
    ensures Intact(c, map[]) && Represents(c, map[], map[])
  {
    SledRuns.EmptyStore(c);
  }

  // ---------------------------------------------------------------- lookup by id

  /** An atom logged in a plain world, in terms of its frame and its body. */
  lemma LoggedBody(c: Codec, db: Db, w: WorldKey, a: Atom)
    requires LogInv(c, db) && Plain(w) && a in Log(c, db, w)
    ensures AtomKey(w, a.id) in db && c.decodeAtom(db[AtomKey(w, a.id)]) == Some(a) && a.world == w
    ensures HasId(Log(c, db, w), a.id)
  {
    assert WorldInv(c, db, w);
    LogAt(c, db, w);
    var keys := ScanPrefix(db, LogPrefix(w));
    var i :| 0 <= i < |Log(c, db, w)| && Log(c, db, w)[i] == a;
    assert keys[i] in keys;
  }

  lemma BodyIsLogged(c: Codec, db: Db, w: WorldKey, id: AtomId)
    requires LogInv(c, db) && Plain(w) && HasId(Log(c, db, w), id)
    ensures AtomKey(w, id) in db && c.decodeAtom(db[AtomKey(w, id)]).Some?
    ensures var a := c.decodeAtom(db[AtomKey(w, id)]).value; a in Log(c, db, w) && a.id == id
  {
    var i :| 0 <= i < |Log(c, db, w)| && Log(c, db, w)[i].id == id;
    LoggedBody(c, db, w, Log(c, db, w)[i]);
  }

  /** The index names a plain world, and exactly for the logged ids. */
  lemma IndexedWorld(c: Codec, db: Db, id: AtomId)
    requires c.RoundTrips() && LogInv(c, db) && IndexInv(c, db)
    ensures IndexKey(id) in db <==> LoggedAnywhere(c, db, id)
    ensures IndexKey(id) in db ==>
              c.decodeIndex(db[IndexKey(id)]).Some?
              && Plain(c.decodeIndex(db[IndexKey(id)]).value.world)
              && HasId(Log(c, db, c.decodeIndex(db[IndexKey(id)]).value.world), id)
  {
    hide LogInv, IndexKey, LogPrefix, Log, Plain, Holds, Names, HasId;
    if IndexKey(id) in db {
      var e :| Holds(db, e) && Names(c, db, e, id) && EntryValue(c, e, db[IndexKey(id)]);
      NamedIsLogged(c, db, e, id);
      HeldIsPlain(db, e);
    }
    if LoggedAnywhere(c, db, id) {
      var w :| Plain(w) && HasId(Log(c, db, w), id);
      var k := LoggedIsHeld(c, db, w, id);
    }
  }

  lemma HeldIsPlain(db: Db, e: (WorldKey, string))
    requires Holds(db, e)
    ensures Plain(e.0)
  {
  }

  /**
   In an intact store a lookup by id is exact, in tenant worlds too: it finds nothing just when no
   world's log has the id, and otherwise it returns the very atom that the one log with it holds.
   */
  lemma LookupIsLog(c: Codec, db: Db, id: AtomId)
    requires c.RoundTrips() && Intact(c, db)
    ensures Lookup(c, db, id).Ok?
    ensures Lookup(c, db, id) == Ok(None) <==> !LoggedAnywhere(c, db, id)
    ensures forall a :: Lookup(c, db, id) == Ok(Some(a)) <==> exists w :: Plain(w) && a in Log(c, db, w) && a.id == id
  {
    hide LogInv, IndexInv, GloballyUnique, IndexKey, AtomKey, Log, Plain, HasId, Lookup;
    IndexedWorld(c, db, id);
    LookupMeaning(c, db, id);
    forall w | Tried(c, db, id, w) && AtomKey(w, id) in db
      ensures Plain(w) && HasId(Log(c, db, w), id)
      ensures c.decodeAtom(db[AtomKey(w, id)]).Some?
      ensures c.decodeAtom(db[AtomKey(w, id)]).value in Log(c, db, w)
      ensures c.decodeAtom(db[AtomKey(w, id)]).value.id == id
    {
      if '/' !in w { SlashFreeIsPlain(w); }
      BodyIsLogged(c, db, w, id);
    }
    forall a, w | Plain(w) && a in Log(c, db, w) && a.id == id
      ensures Lookup(c, db, id) == Ok(Some(a))
    {
      LoggedBody(c, db, w, a);
      LookupFinds(c, db, w, a);
    }
    if LoggedAnywhere(c, db, id) {
      var w :| Plain(w) && HasId(Log(c, db, w), id);
      BodyIsLogged(c, db, w, id);
    }
  }

  lemma LookupFinds(c: Codec, db: Db, w: WorldKey, a: Atom)
    requires c.RoundTrips() && Intact(c, db) && Plain(w) && a in Log(c, db, w)
    ensures Lookup(c, db, a.id) == Ok(Some(a))
  {
    hide LogInv, IndexInv, GloballyUnique, IndexKey, AtomKey, Log, Plain, HasId, SearchKeys;
    LoggedBody(c, db, w, a);
    assert LoggedAnywhere(c, db, a.id);
    IndexedWorld(c, db, a.id);
    UniqueInLogs(c, db, c.decodeIndex(db[IndexKey(a.id)]).value.world, w, a.id);
  }

  /** After reopening, the worlds a lookup tries are slash-free, and what it sees was there before. */
  lemma TriedAfterReopen(c: Codec, db: Db, db': Db, id: AtomId, v: WorldKey)
    requires c.RoundTrips() && LogInv(c, db) && NoOrphans(c, db) && Reopened(c, db, db')
    requires Tried(c, db', id, v) && AtomKey(v, id) in db'
    ensures '/' !in v && HasId(Log(c, db, v), id)
    ensures AtomKey(v, id) in db && db'[AtomKey(v, id)] == db[AtomKey(v, id)]
  {
    hide LogInv, Log, Reopened, Plain, AtomKey, IndexKey, HasId, AtomAt;
    ReopenKeepsLogs(c, db, db');
    ReopenedIndex(c, db, db', id);
    AtomKeyNotIndex(v, id);
    if '/' !in v { SlashFreeIsPlain(v); }
  }

  /**
   What reopening an intact store does to lookups, exactly: an atom logged in a slash-free world is
   found as before; one logged in a world with a slash was found before and is not found any more.
   */
  lemma LookupAfterReopen(c: Codec, db: Db, db': Db, w: WorldKey, a: Atom)
    requires c.RoundTrips() && Intact(c, db) && Plain(w) && a in Log(c, db, w) && Reopened(c, db, db')
    ensures Lookup(c, db, a.id) == Ok(Some(a)) && a in Log(c, db', w)
    ensures Lookup(c, db', a.id) == if '/' in w then Ok(None) else Ok(Some(a))
  {
    hide LogInv, IndexInv, GloballyUnique, NoOrphans, IndexKey, AtomKey, Log, Plain, HasId, Lookup, Reopened;
    LookupFinds(c, db, w, a);
    LoggedBody(c, db, w, a);
    ReopenKeepsLogs(c, db, db');
    AtomKeyNotIndex(w, a.id);
    LookupMeaning(c, db', a.id);
    forall v | Tried(c, db', a.id, v) && AtomKey(v, a.id) in db'
      ensures '/' !in v && v == w && c.decodeAtom(db'[AtomKey(v, a.id)]) == Some(a)
    {
      TriedAfterReopen(c, db, db', a.id, v);
      SlashFreeIsPlain(v);
      UniqueInLogs(c, db, v, w, a.id);
    }
    assert AtomKey(w, a.id) in db' && ('/' !in w ==> Tried(c, db', a.id, w));
    var r := Lookup(c, db', a.id);
    assert r.Ok? && r.value.Some? ==> r.value.value == a;
    assert r.Ok? && (r.value.Some? <==> '/' !in w);
  }

  /** Reopening an intact store of slash-free worlds keeps it intact, and its logs as they were. */
  lemma ReopenRefines(c: Codec, db: Db, db': Db, logs: P.Logs)
    requires c.RoundTrips() && Intact(c, db) && Represents(c, db, logs) && Reopened(c, db, db')
    requires forall e :: Holds(db, e) ==> '/' !in e.0
    ensures Intact(c, db') && Represents(c, db', logs)
  {
    hide LogInv, IndexInv, GloballyUnique, NoOrphans, Log, Plain, Reopened, HasId, Holds;
    ReopenKeepsLogs(c, db, db');
    ReopenKeepsOrphans(c, db, db');
    forall e ensures Holds(db', e) <==> Holds(db, e) { HoldsOutsideIndex(c, db, db', e, ""); }
    ReopenRestoresIndex(c, db, db');
    forall v, w, id | Plain(v) && Plain(w) && HasId(Log(c, db', v), id) && HasId(Log(c, db', w), id)
      ensures v == w
    {
      UniqueInLogs(c, db, v, w, id);
    }
    UniqueByLogs(c, db');
  }

  // ---------------------------------------------------------------- reading what the engine reads

  /** The engine's test for an atom it already has is a lookup by id that finds something. */
  lemma StoredIsLookup(c: Codec, db: Db, logs: P.Logs, id: AtomId)
    requires c.RoundTrips() && Intact(c, db) && Represents(c, db, logs)
    ensures E.Stored(logs, id) <==> Lookup(c, db, id) != Ok(None)
  {
    hide Intact, Log, Lookup, Plain;
    LookupIsLog(c, db, id);
    if E.Stored(logs, id) {
      var w :| w in logs && exists i :: 0 <= i < |logs[w]| && logs[w][i].id == id;
      assert Plain(w) && P.LogOf(logs, w) == Log(c, db, w);
      assert HasId(Log(c, db, w), id);
    }
    if LoggedAnywhere(c, db, id) {
      var w :| Plain(w) && HasId(Log(c, db, w), id);
      assert P.LogOf(logs, w) == Log(c, db, w);
    }
  }

  lemma ScanIsLog(c: Codec, db: Db, logs: P.Logs, w: WorldKey, f: AtomFilter)
    requires LogInv(c, db) && Represents(c, db, logs) && Plain(w)
    ensures Scan(c, db, w, f) == Ok(E.ScanLog(logs, w, f))
  {
    assert WorldInv(c, db, w);
    ScanMeaning(c, db, w, f);
  }

  // ---------------------------------------------------------------- appending one atom

  /** Appending one fresh atom to the store is appending it to the engine's log. */
  lemma AppendRefines(c: Codec, db: Db, logs: P.Logs, a: Atom)
    requires c.RoundTrips() && Intact(c, db) && Represents(c, db, logs)
    requires Plain(a.world) && NextSeq(db, a.world) < U64_LIMIT && !LoggedAnywhere(c, db, a.id)
    ensures var db' := Append(c, db, a.world, [a]);
            && Intact(c, db') && Represents(c, db', logs[a.world := P.LogOf(logs, a.world) + [a]])
            && NextSeq(db', a.world) == NextSeq(db, a.world) + 1
            && forall v :: Plain(v) && v != a.world ==> NextSeq(db', v) == NextSeq(db, v)
  {
    hide LogInv, IndexInv, GloballyUnique, NoOrphans, Log, NextSeq, Plain, PutAtom, AppendWrites, LogPrefix, LogKey;
    var w := a.world;
    var n := NextSeq(db, w);
    AppendStep(c, db, w, n, [a]);
    AppendStop(c, PutAtom(c, db, w, n, a), w, n + 1, [a][1..]);
    AtomSteps(c, db, w, a);
    PutAtomKeepsIndex(c, db, w, a);
    AtomOrphans(c, db, w, a);
  }

  // ---------------------------------------------------------------- deleting

  /** Deleting ids of one world from the store is filtering the engine's log of that world. */
  lemma DeleteRefines(c: Codec, db: Db, logs: P.Logs, w: WorldKey, ids: seq<AtomId>)
    requires Intact(c, db) && Represents(c, db, logs) && Plain(w)
    requires forall id :: id in ids ==> HasId(Log(c, db, w), id)
    ensures var db' := Delete(c, db, w, ids);
            && Intact(c, db')
            && Represents(c, db', if w in logs then logs[w := Keep((a: Atom) => a.id !in ids, logs[w])] else logs)
  {
    hide LogInv, IndexInv, GloballyUnique, NoOrphans, Log, Plain, Delete, HasId, Keep;
    WholeDelete(c, db, w, ids);
    forall id, v | id in ids && Plain(v) && HasId(Log(c, db, v), id)
      ensures v == w
    {
      UniqueInLogs(c, db, v, w, id);
    }
    DeleteKeepsIndex(c, db, w, ids);
    DeleteNoOrphans(c, db, w, ids);
    KeepCongruent((a: Atom) => a.id !in ids, (a: Atom) => Survives(a, ids), Log(c, db, w));
    KeepNone((a: Atom) => Survives(a, ids), []);
  }

  // ---------------------------------------------------------------- ingesting

  /** Remote ingest on the store: look each id up, append what is not found, stop at a bad timestamp. */
  function StoreIngest(c: Codec, cfg: E.Config, db: Db, atoms: seq<Atom>): Db
    decreases |atoms|
  {
    if atoms == [] then db
    else if Lookup(c, db, atoms[0].id) != Ok(None) then StoreIngest(c, cfg, db, atoms[1..])
    else
      var db' := Append(c, db, atoms[0].world, [atoms[0]]);
      if cfg.reflex.Parses(atoms[0]) then StoreIngest(c, cfg, db', atoms[1..]) else db'
  }

  /** Room in every target world for the sequence numbers of the whole batch. */
  ghost predicate Room(db: Db, atoms: seq<Atom>) {
    forall a :: a in atoms ==> Plain(a.world) && NextSeq(db, a.world) + |atoms| <= U64_LIMIT
  }

  lemma RoomLeft(db: Db, db': Db, atoms: seq<Atom>)
    requires atoms != [] && Room(db, atoms)
    requires NextSeq(db', atoms[0].world) <= NextSeq(db, atoms[0].world) + 1
    requires forall v :: Plain(v) && v != atoms[0].world ==> NextSeq(db', v) == NextSeq(db, v)
    ensures Room(db', atoms[1..])
  {
    hide NextSeq, Plain;
    assert forall a :: a in atoms[1..] ==> a in atoms;
  }

  /** Ingest over the store refines ingest over the logs, batch for batch. */
  lemma {:induction false} IngestRefines(c: Codec, cfg: E.Config, db: Db, s: E.State, atoms: seq<Atom>)
    requires c.RoundTrips() && Intact(c, db) && Represents(c, db, s.logs) && Room(db, atoms)
    ensures Intact(c, StoreIngest(c, cfg, db, atoms))
    ensures Represents(c, StoreIngest(c, cfg, db, atoms), E.Ingest(cfg, s, atoms).state.logs)
    decreases |atoms|
  {
    hide Intact, Represents, Plain, NextSeq, Lookup, Append, E.Stored, Room;
    if atoms != [] {
      var a := atoms[0];
      FirstHasRoom(db, atoms);
      StoredIsLookup(c, db, s.logs, a.id);
      if E.Stored(s.logs, a.id) {
        RoomLeft(db, db, atoms);
        IngestRefines(c, cfg, db, s, atoms[1..]);
      } else {
        NotLogged(c, db, a.id);
        AppendRefines(c, db, s.logs, a);
        var db' := Append(c, db, a.world, [a]);
        RoomLeft(db, db', atoms);
        AdmitLogs(cfg, s, a);
        if cfg.reflex.Parses(a) { IngestRefines(c, cfg, db', E.Admit(cfg, s, a), atoms[1..]); }
      }
    }
  }

  /**
   What becomes of an orphan: once a slash-free world stores the body of an id that no slash-free
   log has, no ingest of atoms of slash-free worlds ever logs that id, in any batch.
   */
  lemma {:induction false} OrphanIsSkipped(c: Codec, cfg: E.Config, db: Db, w: WorldKey, id: AtomId, atoms: seq<Atom>)
    requires c.RoundTrips() && LogInv(c, db) && Room(db, atoms) && forall a :: a in atoms ==> '/' !in a.world
    requires '/' !in w && AtomKey(w, id) in db && !LoggedSlashFree(c, db, id)
    ensures var db' := StoreIngest(c, cfg, db, atoms);
            LogInv(c, db') && AtomKey(w, id) in db' && !LoggedSlashFree(c, db', id)
    decreases |atoms|
  {
    hide LogInv, Plain, NextSeq, Lookup, Append, Room, Log, LoggedSlashFree, AtomKey;
    if atoms != [] {
      var a := atoms[0];
      assert a in atoms && forall b :: b in atoms[1..] ==> b in atoms;
      FirstHasRoom(db, atoms);
      if Lookup(c, db, a.id) != Ok(None) {
        RoomLeft(db, db, atoms);
        OrphanIsSkipped(c, cfg, db, w, id, atoms[1..]);
      } else {
        UnknownAppended(c, db, w, id, a);
        var db' := Append(c, db, a.world, [a]);
        RoomLeft(db, db', atoms);
        if cfg.reflex.Parses(a) { OrphanIsSkipped(c, cfg, db', w, id, atoms[1..]); }
      }
    }
  }

  /** Appending an atom that a lookup does not find leaves an orphan as it is. */
  lemma UnknownAppended(c: Codec, db: Db, w: WorldKey, id: AtomId, a: Atom)
    requires c.RoundTrips() && LogInv(c, db) && '/' !in a.world && NextSeq(db, a.world) < U64_LIMIT
    requires '/' !in w && AtomKey(w, id) in db && !LoggedSlashFree(c, db, id) && Lookup(c, db, a.id) == Ok(None)
    ensures var db' := Append(c, db, a.world, [a]);
            && LogInv(c, db') && AtomKey(w, id) in db' && !LoggedSlashFree(c, db', id)
            && NextSeq(db', a.world) == NextSeq(db, a.world) + 1
            && forall v :: Plain(v) && v != a.world ==> NextSeq(db', v) == NextSeq(db, v)
  {
    hide LogInv, Plain, NextSeq, Lookup, Log, AtomKey, LogKey, IndexKey, HasId, PutAtom, AppendWrites, Apply;
    var v := a.world;
    var n := NextSeq(db, v);
    SlashFreeIsPlain(v);
    LookupMeaning(c, db, a.id);
    assert Tried(c, db, a.id, v) && Tried(c, db, id, w);
    if HasId(Log(c, db, v), a.id) { LoggedHasBody(c, db, v, a.id); }
    AtomSteps(c, db, v, a);
    AppendStep(c, db, v, n, [a]);
    AppendStop(c, PutAtom(c, db, v, n, a), v, n + 1, [a][1..]);
    BodyStays(c, db, v, n, a, AtomKey(w, id));
    StillNotLogged(c, db, PutAtom(c, db, v, n, a), v, a, id);
  }

  lemma BodyStays(c: Codec, db: Db, w: WorldKey, n: nat, a: Atom, k: string)
    ensures k in db ==> k in PutAtom(c, db, w, n, a)
  {
  }

  lemma StillNotLogged(c: Codec, db: Db, db': Db, w: WorldKey, a: Atom, id: AtomId)
    requires !LoggedSlashFree(c, db, id) && a.id != id
    requires Log(c, db', w) == Log(c, db, w) + [a] && forall v :: Plain(v) && v != w ==> Log(c, db', v) == Log(c, db, v)
    ensures !LoggedSlashFree(c, db', id)
  {
    hide Log, Plain;
    forall v | '/' !in v
      ensures !HasId(Log(c, db', v), id)
    {
      SlashFreeIsPlain(v);
      assert !HasId(Log(c, db, v), id);
    }
  }

  /**
   Delivering a logged atom again after a reopening: a slash-free world takes no notice; a world with
   a slash, whose atoms can no longer be looked up, logs it a second time.
   */
  lemma RedeliveredAfterReopen(c: Codec, cfg: E.Config, db: Db, db': Db, w: WorldKey, a: Atom)
    requires c.RoundTrips() && Intact(c, db) && Plain(w) && a in Log(c, db, w) && Reopened(c, db, db')
    requires NextSeq(db, w) < U64_LIMIT
    ensures Log(c, StoreIngest(c, cfg, db', [a]), w) == if '/' in w then Log(c, db, w) + [a] else Log(c, db, w)
  {
    hide LogInv, IndexInv, GloballyUnique, NoOrphans, Plain, NextSeq, Lookup, Log, Reopened, PutAtom, AppendWrites, Apply;
    IntactHasLogs(c, db);
    LookupAfterReopen(c, db, db', w, a);
    ReopenKeepsLogs(c, db, db');
    LoggedBody(c, db, w, a);
    if '/' in w {
      var n := NextSeq(db', w);
      AppendStep(c, db', w, n, [a]);
      AppendStop(c, PutAtom(c, db', w, n, a), w, n + 1, [a][1..]);
      var i :| 0 <= i < |Log(c, db', w)| && Log(c, db', w)[i] == a;
      InvOf(c, db', w);
      ReusedLog(c, db', w, a, i);
      assert Log(c, db', w)[i := a] == Log(c, db', w);
    }
  }

  lemma InvOf(c: Codec, db: Db, w: WorldKey)
    requires LogInv(c, db) && Plain(w)
    ensures WorldInv(c, db, w)
  {
    hide WorldInv, Plain;
  }

  lemma FirstHasRoom(db: Db, atoms: seq<Atom>)
    requires atoms != [] && Room(db, atoms)
    ensures Plain(atoms[0].world) && NextSeq(db, atoms[0].world) < U64_LIMIT
  {
    hide NextSeq, Plain;
    assert atoms[0] in atoms;
  }

  lemma NotLogged(c: Codec, db: Db, id: AtomId)
    requires c.RoundTrips() && Intact(c, db) && Lookup(c, db, id) == Ok(None)
    ensures !LoggedAnywhere(c, db, id)
  {
    hide Intact, Lookup, LoggedAnywhere, Log, Plain;
    LookupIsLog(c, db, id);
  }

  lemma AdmitLogs(cfg: E.Config, s: E.State, a: Atom)
    ensures E.Admit(cfg, s, a).logs == s.logs[a.world := P.LogOf(s.logs, a.world) + [a]]
  {
  }
}
