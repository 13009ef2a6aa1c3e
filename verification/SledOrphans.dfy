/**
 Bodies without frames. An append torn between a body and its frame leaves one; nothing else does.
 While there is none, lookups by id and logs agree; the one left by a torn append is found by every
 later lookup, so that remote ingest never logs its atom.
 */
module SledOrphans {
  import opened Prelude
  import opened Text
  import opened Atoms
  import opened SledKeys
  import opened SledStore
  import opened SledLogs
  import opened SledCrash
  import opened SledDelete
  import opened SledIndex
  import opened SledLookup

  /** No body is stored without a frame that names it. */
  ghost predicate NoOrphans(c: Codec, db: Db) {
    forall w, id :: Plain(w) && AtomKey(w, id) in db ==> HasId(Log(c, db, w), id)
  }

  // ---------------------------------------------------------------- appends and deletions

  /** Storing a body together with its frame leaves no orphan. */
  lemma GrownNoOrphans(c: Codec, db: Db, db': Db, w: WorldKey, a: Atom)
    requires NoOrphans(c, db) && Plain(w)
    requires forall v, id :: Plain(v) && AtomKey(v, id) in db' ==> AtomKey(v, id) in db || (v == w && id == a.id)
    requires Log(c, db', w) == Log(c, db, w) + [a] && forall v :: Plain(v) && v != w ==> Log(c, db', v) == Log(c, db, v)
    ensures NoOrphans(c, db')
  {
    hide AtomKey, Log, Plain;
    forall v, id | Plain(v) && AtomKey(v, id) in db'
      ensures HasId(Log(c, db', v), id)
    {
      if AtomKey(v, id) in db {
        var i :| 0 <= i < |Log(c, db, v)| && Log(c, db, v)[i].id == id;
        assert Log(c, db', v)[i].id == id;
      } else {
        assert Log(c, db', w)[|Log(c, db, w)|].id == id;
      }
    }
  }

  /** The body keys after each of the three inserts of one atom. */
  lemma PutBodies(c: Codec, db: Db, w: WorldKey, n: nat, a: Atom, v: WorldKey, id: AtomId)
    requires Plain(w) && Plain(v)
    ensures var db1 := db[AtomKey(w, a.id) := c.encodeAtom(a)];
            var db2 := db1[LogKey(w, n) := c.encodeFrame(FrameFor(c, a))];
            && (AtomKey(v, id) in db1 <==> AtomKey(v, id) in db || (v == w && id == a.id))
            && (AtomKey(v, id) in db2 <==> AtomKey(v, id) in db1)
            && (AtomKey(v, id) in PutAtom(c, db, w, n, a) <==> AtomKey(v, id) in db1)
  {
    hide LogKey, AtomKey, IndexKey, Plain;
    KeysDistinct(v, id, w, n, a.id);
    if AtomKey(v, id) == AtomKey(w, a.id) { AtomKeyInjective(v, id, w, a.id); }
  }

  /** Of the inserts of one atom only the first, on its own, leaves an orphan. */
  lemma AtomOrphans(c: Codec, db: Db, w: WorldKey, a: Atom)
    requires c.RoundTrips() && LogInv(c, db) && Plain(w) && NextSeq(db, w) < U64_LIMIT
    requires a.world == w && !HasId(Log(c, db, w), a.id) && NoOrphans(c, db)
    ensures var n := NextSeq(db, w);
            var db1 := db[AtomKey(w, a.id) := c.encodeAtom(a)];
            && !NoOrphans(c, db1)
            && NoOrphans(c, db1[LogKey(w, n) := c.encodeFrame(FrameFor(c, a))])
            && NoOrphans(c, PutAtom(c, db, w, n, a))
  {
    hide LogInv, LogKey, AtomKey, IndexKey, Log, Plain, NextSeq, PutAtom, HasId;
    var n := NextSeq(db, w);
    var db1 := db[AtomKey(w, a.id) := c.encodeAtom(a)];
    AtomSteps(c, db, w, a);
    assert AtomKey(w, a.id) in db1;
    forall v, id | Plain(v)
      ensures var db2 := db1[LogKey(w, n) := c.encodeFrame(FrameFor(c, a))];
              && (AtomKey(v, id) in db2 ==> AtomKey(v, id) in db || (v == w && id == a.id))
              && (AtomKey(v, id) in PutAtom(c, db, w, n, a) ==> AtomKey(v, id) in db || (v == w && id == a.id))
    {
      PutBodies(c, db, w, n, a, v, id);
    }
    GrownNoOrphans(c, db, db1[LogKey(w, n) := c.encodeFrame(FrameFor(c, a))], w, a);
    GrownNoOrphans(c, db, PutAtom(c, db, w, n, a), w, a);
  }

  lemma DeleteNoOrphans(c: Codec, db: Db, w: WorldKey, ids: seq<AtomId>)
    requires LogInv(c, db) && NoOrphans(c, db) && Plain(w)
    ensures NoOrphans(c, Delete(c, db, w, ids))
  {
    hide LogKey, AtomKey, IndexKey, Log, Plain, LogInv, FrameRemovals, Delete, Keep;
    var db' := Delete(c, db, w, ids);
    WholeDelete(c, db, w, ids);
    forall v, id | Plain(v) && AtomKey(v, id) in db'
      ensures HasId(Log(c, db', v), id)
    {
      DeletedBody(c, db, w, ids, AtomKey(v, id));
      var i :| 0 <= i < |Log(c, db, v)| && Log(c, db, v)[i].id == id;
      if v == w {
        SurvivorStays(Log(c, db, w), ids, i);
      }
    }
  }

  lemma DeletedBody(c: Codec, db: Db, w: WorldKey, ids: seq<AtomId>, k: string)
    requires k in Delete(c, db, w, ids)
    ensures k in db && forall id :: id in ids ==> k != AtomKey(w, id)
  {
    hide AtomKey, IndexKey, FrameRemovals;
    forall id | id in ids
      ensures k != AtomKey(w, id)
    {
      var i :| 0 <= i < |ids| && ids[i] == id;
      assert AtomKey(w, ids[i]) in BodyRemovals(w, ids);
    }
  }

  lemma SurvivorStays(log: seq<Atom>, ids: seq<AtomId>, i: nat)
    requires i < |log| && log[i].id !in ids
    ensures HasId(Keep((a: Atom) => Survives(a, ids), log), log[i].id)
  {
    var kept := Keep((a: Atom) => Survives(a, ids), log);
    assert log[i] in kept;
    var j :| 0 <= j < |kept| && kept[j] == log[i];
  }

  // ---------------------------------------------------------------- torn appends

  /** One atom's part of a torn append. */
  lemma AtomCut(c: Codec, db: Db, w: WorldKey, a: Atom, rest: seq<Write>, n: nat)
    requires c.RoundTrips() && LogInv(c, db) && Plain(w) && NextSeq(db, w) < U64_LIMIT
    requires a.world == w && !HasId(Log(c, db, w), a.id) && NoOrphans(c, db) && 1 <= n <= 3 + |rest|
    ensures var s := NextSeq(db, w);
            var db3 := PutAtom(c, db, w, s, a);
            var cut := Apply(db, (AtomWrites(c, w, s, a) + rest)[..n]);
            && (n <= 2 ==> (NoOrphans(c, cut) <==> n != 1))
            && (n >= 3 ==> cut == Apply(db3, rest[..n - 3]))
            && LogInv(c, db3) && NoOrphans(c, db3) && Log(c, db3, w) == Log(c, db, w) + [a] && NextSeq(db3, w) == s + 1
  {
    hide LogPrefix, AtomKey, LogKey, IndexKey, Log, NextSeq, LogInv, Plain, HasId, PutAtom, AtomWrites, Apply, NoOrphans;
    AtomSteps(c, db, w, a);
    AtomOrphans(c, db, w, a);
    TornAtom(c, db, w, NextSeq(db, w), a, rest, n);
  }

  lemma ThreeLess(n: nat)
    ensures n == 1 || n == 2 ==> (n != 1 <==> n % 3 != 1)
    ensures n >= 3 ==> (n - 3) % 3 == n % 3
  {
  }

  /** Exactly which cuts of an append leave an orphan: those just after a body. */
  lemma {:induction false} TornOrphans(c: Codec, db: Db, w: WorldKey, atoms: seq<Atom>, n: nat)
    requires c.RoundTrips() && LogInv(c, db) && FreshBatch(c, db, w, atoms) && n <= 3 * |atoms| && NoOrphans(c, db)
    ensures |AppendWrites(c, w, NextSeq(db, w), atoms)| == 3 * |atoms|
    ensures NoOrphans(c, Apply(db, AppendWrites(c, w, NextSeq(db, w), atoms)[..n])) <==> n % 3 != 1
    decreases |atoms|
  {
    hide LogPrefix, AtomKey, LogKey, IndexKey, Log, NextSeq, LogInv, Plain, HasId, PutAtom, AtomWrites, AppendWrites, FreshBatch, NoOrphans;
    var s := NextSeq(db, w);
    FreshHead(c, db, w, atoms);
    if n == 0 {
      assert AppendWrites(c, w, s, atoms)[..0] == [];
    } else {
      var rest := AppendWrites(c, w, s + 1, atoms[1..]);
      AtomCut(c, db, w, atoms[0], rest, n);
      ThreeLess(n);
      if n >= 3 {
        FreshTail(c, db, PutAtom(c, db, w, s, atoms[0]), w, atoms);
        TornOrphans(c, PutAtom(c, db, w, s, atoms[0]), w, atoms[1..], n - 3);
      }
    }
  }

  /** Some slash-free world's log carries the id. */
  ghost predicate LoggedSlashFree(c: Codec, db: Db, id: AtomId) {
    exists w :: '/' !in w && HasId(Log(c, db, w), id)
  }

  /** After reopening, a lookup comes back empty just when no slash-free world stores a body. */
  lemma ReopenedLookup(c: Codec, db: Db, db': Db, id: AtomId)
    requires c.RoundTrips() && LogInv(c, db) && Reopened(c, db, db')
    ensures Lookup(c, db', id) != Ok(None) <==> exists w :: '/' !in w && AtomKey(w, id) in db'
  {
    hide LogInv, Log, Plain, AtomKey, IndexKey, HasId, Reopened, Lookup, AtomAt;
    LookupMeaning(c, db', id);
    ReopenedIndex(c, db, db', id);
    forall w | Tried(c, db', id, w)
      ensures '/' !in w
    {
    }
    if w :| '/' !in w && AtomKey(w, id) in db' { assert Tried(c, db', id, w); }
  }

  lemma LoggedHasBody(c: Codec, db: Db, w: WorldKey, id: AtomId)
    requires LogInv(c, db) && Plain(w) && HasId(Log(c, db, w), id)
    ensures AtomKey(w, id) in db
  {
    assert WorldInv(c, db, w);
    BodiesPresent(c, db, w);
  }

  lemma ReopenKeepsOrphans(c: Codec, db: Db, db': Db)
    requires LogInv(c, db) && Reopened(c, db, db')
    ensures NoOrphans(c, db') <==> NoOrphans(c, db)
  {
    hide LogInv, Log, Plain, AtomKey, Reopened, HasId;
    ReopenKeepsLogs(c, db, db');
    forall w, id
      ensures AtomKey(w, id) in db' <==> AtomKey(w, id) in db
    {
      AtomKeyNotIndex(w, id);
    }
  }

  /** Without orphans, a reopened store finds by id exactly what slash-free worlds log. */
  lemma LookupWithoutOrphans(c: Codec, db: Db, db': Db, id: AtomId)
    requires c.RoundTrips() && LogInv(c, db) && Reopened(c, db, db') && NoOrphans(c, db')
    ensures Lookup(c, db', id) != Ok(None) <==> LoggedSlashFree(c, db', id)
  {
    hide LogInv, Log, Plain, AtomKey, Reopened, HasId, Lookup;
    ReopenKeepsLogs(c, db, db');
    ReopenedLookup(c, db, db', id);
    forall w | '/' !in w
      ensures AtomKey(w, id) in db' <==> HasId(Log(c, db', w), id)
    {
      SlashFreeIsPlain(w);
      if HasId(Log(c, db', w), id) { LoggedHasBody(c, db', w, id); }
    }
  }

  lemma {:induction false} ApplyElsewhere(db: Db, writes: seq<Write>, k: string)
    requires forall i :: 0 <= i < |writes| ==> writes[i].key != k
    ensures k in Apply(db, writes) <==> k in db
    decreases |writes|
  {
    if writes != [] { ApplyElsewhere(db[writes[0].key := writes[0].value], writes[1..], k); }
  }

  /** An append writes the body keys of its own world only. */
  lemma {:induction false} AppendTouches(c: Codec, w: WorldKey, n: nat, atoms: seq<Atom>, v: WorldKey, id: AtomId)
    requires Plain(w) && Plain(v) && v != w
    ensures forall i :: 0 <= i < |AppendWrites(c, w, n, atoms)| ==> AppendWrites(c, w, n, atoms)[i].key != AtomKey(v, id)
    decreases |atoms|
  {
    hide AtomKey, LogKey, IndexKey, Plain;
    if atoms != [] && atoms[0].world == w {
      AppendTouches(c, w, n + 1, atoms[1..], v, id);
      KeysDistinct(v, id, w, n, atoms[0].id);
      if AtomKey(v, id) == AtomKey(w, atoms[0].id) { AtomKeyInjective(v, id, w, atoms[0].id); }
    }
  }

  /** A cut append into a world with a slash leaves every slash-free body key as it was. */
  lemma TornElsewhere(c: Codec, db: Db, w: WorldKey, atoms: seq<Atom>, n: nat, v: WorldKey, id: AtomId)
    requires Plain(w) && '/' in w && '/' !in v && n <= |AppendWrites(c, w, NextSeq(db, w), atoms)|
    ensures AtomKey(v, id) in Apply(db, AppendWrites(c, w, NextSeq(db, w), atoms)[..n]) <==> AtomKey(v, id) in db
  {
    hide AtomKey, Plain, NextSeq, AppendWrites, Apply;
    SlashFreeIsPlain(v);
    AppendTouches(c, w, NextSeq(db, w), atoms, v, id);
    ApplyElsewhere(db, AppendWrites(c, w, NextSeq(db, w), atoms)[..n], AtomKey(v, id));
  }

  /** What lookups find after a cut append into a world with a slash: what slash-free worlds log, always. */
  lemma TornInTenant(c: Codec, db: Db, w: WorldKey, atoms: seq<Atom>, n: nat, db': Db, id: AtomId)
    requires c.RoundTrips() && LogInv(c, db) && NoOrphans(c, db) && FreshBatch(c, db, w, atoms) && '/' in w
    requires n <= 3 * |atoms| && n <= |AppendWrites(c, w, NextSeq(db, w), atoms)|
    requires Reopened(c, Apply(db, AppendWrites(c, w, NextSeq(db, w), atoms)[..n]), db')
    ensures Lookup(c, db', id) != Ok(None) <==> LoggedSlashFree(c, db', id)
  {
    hide LogInv, NextSeq, Reopened, Lookup, AppendWrites, Apply, HasId, Log, AtomKey, Plain;
    var cut := Apply(db, AppendWrites(c, w, NextSeq(db, w), atoms)[..n]);
    TornAppend(c, db, w, atoms, n);
    CrashRecovery(c, db, w, atoms, n, db');
    ReopenKeepsLogs(c, cut, db');
    ReopenedLookup(c, cut, db', id);
    forall v | '/' !in v
      ensures AtomKey(v, id) in db' <==> HasId(Log(c, db', v), id)
    {
      SlashFreeIsPlain(v);
      AtomKeyNotIndex(v, id);
      TornElsewhere(c, db, w, atoms, n, v, id);
      if HasId(Log(c, db, v), id) { LoggedHasBody(c, db, v, id); }
    }
  }

  /**
   A torn append, reopened, in terms of what readers see: a lookup by id finds exactly what
   slash-free worlds log if and only if the cut was not just after a body, or the world has a slash in
   its name. Just after a body in a slash-free world, the atom it belongs to is found by id and logged
   nowhere.
   */
  lemma TornAppendLookup(c: Codec, db: Db, w: WorldKey, atoms: seq<Atom>, n: nat, db': Db)
    requires c.RoundTrips() && LogInv(c, db) && NoOrphans(c, db) && FreshBatch(c, db, w, atoms)
    requires n <= 3 * |atoms| && forall a :: a in atoms ==> !LoggedAnywhere(c, db, a.id)
    requires |AppendWrites(c, w, NextSeq(db, w), atoms)| == 3 * |atoms|
    requires Reopened(c, Apply(db, AppendWrites(c, w, NextSeq(db, w), atoms)[..n]), db')
    ensures (forall id :: Lookup(c, db', id) != Ok(None) <==> LoggedSlashFree(c, db', id)) <==> n % 3 != 1 || '/' in w
    ensures NoOrphans(c, db') <==> n % 3 != 1
    ensures n % 3 == 1 && '/' !in w ==>
              Lookup(c, db', atoms[n / 3].id) != Ok(None) && !LoggedAnywhere(c, db', atoms[n / 3].id)
  {
    hide LogInv, NoOrphans, FreshBatch, LoggedAnywhere, LoggedSlashFree, Log, NextSeq, Reopened, Lookup, AppendWrites, Apply, HasId;
    var cut := Apply(db, AppendWrites(c, w, NextSeq(db, w), atoms)[..n]);
    TornAppend(c, db, w, atoms, n);
    TornOrphans(c, db, w, atoms, n);
    ReopenKeepsOrphans(c, cut, db');
    if '/' in w {
      forall id { TornInTenant(c, db, w, atoms, n, db', id); }
    } else if n % 3 == 1 {
      assert n == 3 * (n / 3) + 1;
      OrphanBodyIsFound(c, db, w, atoms, n / 3, db');
      OrphanNotLogged(c, db, w, atoms, n, db');
      NotAnywhere(c, db', atoms[n / 3].id);
    } else {
      forall id
        ensures Lookup(c, db', id) != Ok(None) <==> LoggedSlashFree(c, db', id)
      {
        LookupWithoutOrphans(c, cut, db', id);
      }
    }
  }

  lemma OrphanNotLogged(c: Codec, db: Db, w: WorldKey, atoms: seq<Atom>, n: nat, db': Db)
    requires c.RoundTrips() && LogInv(c, db) && FreshBatch(c, db, w, atoms) && n < 3 * |atoms|
    requires forall a :: a in atoms ==> !LoggedAnywhere(c, db, a.id)
    requires n <= |AppendWrites(c, w, NextSeq(db, w), atoms)|
    requires Reopened(c, Apply(db, AppendWrites(c, w, NextSeq(db, w), atoms)[..n]), db')
    requires !HasId(Log(c, db', w), atoms[n / 3].id)
    ensures !LoggedAnywhere(c, db', atoms[n / 3].id)
  {
    hide LogInv, FreshBatch, Log, NextSeq, Reopened, AppendWrites, Apply, HasId, Plain;
    CrashRecovery(c, db, w, atoms, n, db');
    assert !LoggedAnywhere(c, db, atoms[n / 3].id);
  }

  lemma NotAnywhere(c: Codec, db: Db, id: AtomId)
    requires !LoggedAnywhere(c, db, id)
    ensures !LoggedSlashFree(c, db, id)
  {
    hide Log, HasId, Plain;
    forall w | '/' !in w ensures Plain(w) { SlashFreeIsPlain(w); }
  }
}
