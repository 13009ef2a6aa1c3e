/** The storage engine as an object that edits its map in place, each method against SledStore. */
module SledStorage {
  import opened Prelude
  import opened Text
  import opened OrderedMap
  import opened Atoms
  import opened SledKeys
  import opened SledStore

  class Storage {
    const codec: Codec
    var db: Db

    /** Opening: repair every discovered log, then rebuild the index; both in any world order. */
    constructor Open(codec: Codec, db: Db)
      ensures this.codec == codec
      ensures Reopened(codec, db, this.db)
    {
      this.codec := codec;
      this.db := db;
      new;
      RepairLogs();
      var _ := RebuildIndex();
    }

    method RepairWorldLog(w: WorldKey)
      modifies this`db
      ensures db == RepairWorld(codec, old(db), w)
    {
      hide LogPrefix, AtomKey, IndexKey, LogKey, SeqOf, WorldOf, Below, Sorted, ScanPrefix;
      var keys := ScanPrefix(db, LogPrefix(w));
      var bad: Option<nat> := None;
      var i := 0;
      while i < |keys| && bad == None
        invariant 0 <= i <= |keys|
        invariant bad == None ==> FirstBad(codec, db, w, keys) == FirstBad(codec, db, w, keys[i..])
        invariant bad.Some? ==> FirstBad(codec, db, w, keys) == bad
        decreases |keys| - i
      {
        assert keys[i..][0] == keys[i] && keys[i..][1..] == keys[i + 1..];
        match SeqOf(keys[i]) {
          case None =>
          case Some(n) => if !GoodFrame(codec, db, w, db[keys[i]]) { bad := Some(n); }
        }
        i := i + 1;
      }
      if bad.Some? {
        var toDelete := {};
        for j := 0 to |keys|
          invariant forall k :: k in toDelete <==> k in keys[..j] && AtOrPast(k, bad.value)
        {
          assert keys[..j + 1] == keys[..j] + [keys[j]];
          if AtOrPast(keys[j], bad.value) { toDelete := toDelete + {keys[j]}; }
        }
        assert keys[..|keys|] == keys;
        assert toDelete == Doomed(codec, db, w);
        db := db - toDelete;
      }
    }

    /** World discovery, key by key. */
    method ListWorlds() returns (worlds: set<WorldKey>)
      ensures worlds == Worlds(db)
    {
      hide WorldsIn, Worlds, ScanPrefix, WorldOf;
      var keys := ScanPrefix(db, WORLD);
      worlds := {};
      NoWorlds();
      for i := 0 to |keys|
        invariant worlds == WorldsIn(keys[..i])
      {
        OneMoreWorld(keys[..i], keys[i]);
        assert keys[..i + 1] == keys[..i] + [keys[i]];
        var w := WorldOf(keys[i]);
        if w.Some? { worlds := worlds + {w.value}; }
      }
      assert keys[..|keys|] == keys;
      WorldsAreIn(db);
    }

    method RepairLogs()
      modifies this`db
      ensures db == Repair(codec, old(db))
    {
      var worlds := ListWorlds();
      ghost var start := db;
      ghost var visited: set<WorldKey> := {};
      while worlds != {}
        invariant visited + worlds == Worlds(start) && visited !! worlds
        invariant db == start - DoomedIn(codec, start, visited)
        decreases worlds
      {
        var w :| w in worlds;
        RepairOneMore(codec, start, visited, w);
        RepairWorldLog(w);
        visited := visited + {w};
        worlds := worlds - {w};
      }
      assert visited == Worlds(start);
    }

    method ClearIndex()
      modifies this`db
      ensures db == old(db) - set k | k in old(db) && Below(INDEX, k)
    {
      var toDelete := ScanPrefix(db, INDEX);
      db := Without(db, toDelete);
    }

    method RebuildIndex() returns (written: nat)
      modifies this`db
      ensures Rebuilt(codec, old(db), db)
      ensures written == |Entries(codec, old(db))|
    {
      hide LogPrefix, AtomKey, IndexKey, LogKey, SeqOf, WorldOf, Below, Sorted, ScanPrefix;
      ghost var start := db;
      ClearIndex();
      var worlds := ListWorlds();
      written := 0;
      IndexCleared(codec, start, db);
      ghost var done: set<(WorldKey, string)> := {};
      while worlds != {}
        invariant worlds <= Worlds(start)
        invariant SameOutsideIndex(start, db) && IndexFrom(codec, start, done, db)
        invariant forall e :: e in done <==> e in Entries(codec, start) && e.0 !in worlds
        invariant written == |done|
        decreases worlds
      {
        var w :| w in worlds;
        var n;
        n, done := IndexWorld(w, start, done);
        written := written + n;
        worlds := worlds - {w};
      }
      assert done == Entries(codec, start);
    }

    /** The inner loop of the rebuild: record every readable frame of one world. */
    method IndexWorld(w: WorldKey, ghost start: Db, ghost done: set<(WorldKey, string)>)
      returns (written: nat, ghost all: set<(WorldKey, string)>)
      requires w in Worlds(start) && forall e :: e in done ==> e.0 != w
      requires SameOutsideIndex(start, db) && IndexFrom(codec, start, done, db)
      modifies this`db
      ensures SameOutsideIndex(start, db) && IndexFrom(codec, start, all, db)
      ensures forall e :: e in all <==> e in done || (e in Entries(codec, start) && e.0 == w)
      ensures |all| == |done| + written
    {
      hide IndexFrom, SameOutsideIndex, Worlds, Listed, LogPrefix, AtomKey, IndexKey, LogKey, SeqOf, WorldOf, Below, Sorted, ScanPrefix;
      var keys := ScanPrefix(db, LogPrefix(w));
      LogsOutsideIndex(start, db, w);
      EntriesOfWorld(codec, start, w, keys);
      AscendingDistinct(keys);
      written := 0;
      all := done;
      var i := 0;
      while i < |keys|
        invariant 0 <= i <= |keys|
        invariant SameOutsideIndex(start, db) && IndexFrom(codec, start, all, db)
        invariant forall e :: e in all <==>
                    e in done || (e.0 == w && e.1 in keys[..i] && Listed(codec, start, w, e.1))
        invariant |all| == |done| + written
      {
        var k := keys[i];
        assert keys[..i + 1] == keys[..i] + [k];
        assert k !in keys[..i];
        LogsOutsideIndex(start, db, w);
        ListedSame(codec, start, db, w, k);
        if SeqOf(k).Some? && codec.decodeFrame(db[k]).Some? {
          IndexOneMore(codec, start, all, db, w, k);
          var id := ListedId(codec, db, k);
          db := db[IndexKey(id) := codec.encodeIndex(IndexEntry(w, SeqOf(k).value))];
          assert (w, k) !in all;
          all := all + {(w, k)};
          written := written + 1;
        }
        i := i + 1;
      }
      assert keys[..|keys|] == keys;
    }

    method AppendAtoms(w: WorldKey, atoms: seq<Atom>) returns (r: Result<seq<AtomId>, StorageError>)
      requires NextSeq(db, w) + |atoms| <= U64_LIMIT
      modifies this`db
      ensures db == Append(codec, old(db), w, atoms)
      ensures r.Ok? <==> forall a :: a in atoms ==> a.world == w
      ensures r.Ok? ==> r.value == Ids(atoms)
    {
      hide PutAtom, AtomWrites, AppendWrites, Apply, NextSeq;
      var ids := [];
      var n := NextSeq(db, w);
      var i := 0;
      ghost var goal := Append(codec, db, w, atoms);
      assert atoms[0..] == atoms;
      hide Append, Ids;
      while i < |atoms|
        invariant 0 <= i <= |atoms| && |ids| == i
        invariant forall j :: 0 <= j < i ==> atoms[j].world == w && ids[j] == atoms[j].id
        invariant Apply(db, AppendWrites(codec, w, n + i, atoms[i..])) == goal
      {
        var a := atoms[i];
        if a.world != w {
          AppendStop(codec, db, w, n + i, atoms[i..]);
          return Err(WorldMismatch(a.world, w));
        }
        assert atoms[i..][1..] == atoms[i + 1..];
        AppendStep(codec, db, w, n + i, atoms[i..]);
        InsertAtom(w, n + i, a);
        ids := ids + [a.id];
        i := i + 1;
      }
      AppendStop(codec, db, w, n + i, atoms[i..]);
      assert ids == Ids(atoms);
      return Ok(ids);
    }

    /** The three inserts of one atom: body, frame, index entry. */
    method InsertAtom(w: WorldKey, n: nat, a: Atom)
      modifies this`db
      ensures db == PutAtom(codec, old(db), w, n, a)
    {
      var body := codec.encodeAtom(a);
      var frame := LogFrame(a.id, codec.checksum(body), codec.size(body));
      db := db[AtomKey(w, a.id) := body];
      db := db[LogKey(w, n) := codec.encodeFrame(frame)];
      db := db[IndexKey(a.id) := codec.encodeIndex(IndexEntry(w, n))];
    }

    method GetByIds(ids: seq<AtomId>) returns (r: Result<seq<Atom>, StorageError>)
      ensures r == SledStore.GetByIds(codec, db, ids)
    {
      hide LogPrefix, AtomKey, IndexKey, LogKey, SeqOf, WorldOf, Below, Sorted, ScanPrefix, SledStore.GetByIds, Prepend;
      var out := [];
      var i := 0;
      assert ids[0..] == ids;
      PrependNothing(SledStore.GetByIds(codec, db, ids));
      while i < |ids|
        invariant 0 <= i <= |ids|
        invariant SledStore.GetByIds(codec, db, ids) == Prepend(out, SledStore.GetByIds(codec, db, ids[i..]))
      {
        var id := ids[i];
        assert ids[i..][0] == id && ids[i..][1..] == ids[i + 1..];
        GetByIdsStep(codec, db, ids[i..]);
        var found: Option<Atom> := None;
        if IndexKey(id) in db {
          var entry := codec.decodeIndex(db[IndexKey(id)]);
          if entry.Some? {
            var hit := AtomFromStore(codec, db, id, entry.value.world);
            if hit.Err? { PrependFailure(out, hit.error); return Err(hit.error); }
            found := hit.value;
          }
        }
        assert IndexedLookup(codec, db, id) == Ok(found);
        if found == None {
          var keys := ScanPrefix(db, WORLD);
          var j := 0;
          while j < |keys| && found == None
            invariant 0 <= j <= |keys|
            invariant found == None ==> SearchKeys(codec, db, id, keys) == SearchKeys(codec, db, id, keys[j..])
            invariant found.Some? ==> SearchKeys(codec, db, id, keys) == Ok(found)
            decreases |keys| - j
          {
            assert keys[j..][1..] == keys[j + 1..];
            if EndsWith(keys[j], ATOMS + id) {
              var hit := AtomFromStore(codec, db, id, SegmentOne(keys[j]));
              if hit.Err? { PrependFailure(out, hit.error); return Err(hit.error); }
              found := hit.value;
            }
            j := j + 1;
          }
        }
        assert Lookup(codec, db, id) == Ok(found);
        PrependTwice(out, Listing(found), SledStore.GetByIds(codec, db, ids[i + 1..]));
        out := out + Listing(found);
        i := i + 1;
      }
      GetByIdsStep(codec, db, ids[i..]);
      PrependAll(out);
      return Ok(out);
    }

    method Scan(w: WorldKey, f: AtomFilter) returns (r: Result<seq<Atom>, StorageError>)
      ensures r == SledStore.Scan(codec, db, w, f)
    {
      hide LogPrefix, AtomKey, IndexKey, LogKey, SeqOf, WorldOf, Below, Sorted, ScanPrefix;
      if f.world.Some? && f.world.value != w { return Ok([]); }
      var keys := ScanPrefix(db, LogPrefix(w));
      var results := [];
      var i := 0;
      while i < |keys|
        invariant 0 <= i <= |keys|
        invariant ScanKeys(codec, db, w, f, keys, []) == ScanKeys(codec, db, w, f, keys[i..], results)
      {
        assert keys[i..][1..] == keys[i + 1..];
        var frame := codec.decodeFrame(db[keys[i]]);
        if frame.Some? {
          var hit := AtomFromStore(codec, db, frame.value.atomId, w);
          if hit.Err? { return Err(hit.error); }
          if hit.value.Some? && MatchesFilter(hit.value.value, f) {
            results := results + [hit.value.value];
            if f.limit.Some? && |results| >= f.limit.value { return Ok(results); }
          }
        }
        i := i + 1;
      }
      return Ok(results);
    }

    method DeleteAtoms(w: WorldKey, ids: seq<AtomId>) returns (removed: nat)
      modifies this`db
      ensures db == Delete(codec, old(db), w, ids)
      ensures removed == |FrameRemovals(codec, Without(old(db), BodyRemovals(w, ids)), w, ids)|
    {
      RemoveBodies(w, ids);
      removed := RemoveFrames(w, ids);
      WithoutTwice(old(db), BodyRemovals(w, ids),
                   FrameRemovals(codec, Without(old(db), BodyRemovals(w, ids)), w, ids));
    }

    /** The first loop of a deletion: bodies and index entries, one id at a time. */
    method RemoveBodies(w: WorldKey, ids: seq<AtomId>)
      modifies this`db
      ensures db == Without(old(db), BodyRemovals(w, ids))
    {
      hide LogPrefix, AtomKey, IndexKey, LogKey, SeqOf, WorldOf, Below, Sorted, ScanPrefix;
      var i := 0;
      while i < |ids|
        invariant 0 <= i <= |ids|
        invariant Without(db, BodyRemovals(w, ids[i..])) == Without(old(db), BodyRemovals(w, ids))
      {
        assert ids[i..][1..] == ids[i + 1..];
        WithoutTwice(db, [AtomKey(w, ids[i]), IndexKey(ids[i])], BodyRemovals(w, ids[i + 1..]));
        WithoutPair(db, AtomKey(w, ids[i]), IndexKey(ids[i]));
        db := db - {AtomKey(w, ids[i])};
        db := db - {IndexKey(ids[i])};
        i := i + 1;
      }
    }

    /** The second loop of a deletion: the frames that name a deleted id. */
    method RemoveFrames(w: WorldKey, ids: seq<AtomId>) returns (removed: nat)
      modifies this`db
      ensures db == Without(old(db), FrameRemovals(codec, old(db), w, ids))
      ensures removed == |FrameRemovals(codec, old(db), w, ids)|
    {
      ghost var start := db;
      var keys := ScanPrefix(db, LogPrefix(w));
      removed := 0;
      NoneRemoved(codec, start, ids);
      for j := 0 to |keys|
        invariant db == RemovedSoFar(codec, start, ids, keys[..j])
        invariant removed == |NamedKeys(codec, start, ids, keys[..j])|
      {
        hide LogPrefix, ScanPrefix, RemovedSoFar, NamedKeys, FrameNames;
        RemovedOneMore(codec, start, w, ids, j);
        var frame := codec.decodeFrame(db[keys[j]]);
        if frame.Some? && frame.value.atomId in ids {
          db := db - {keys[j]};
          removed := removed + 1;
        }
      }
      assert keys[..|keys|] == keys;
    }
  }

  /** The worlds that some keys name. */
  function WorldsIn(keys: seq<string>): set<WorldKey> {
    set k | k in keys && WorldOf(k).Some? :: WorldOf(k).value
  }

  lemma NoWorlds()
    ensures WorldsIn([]) == {}
  {
  }

  lemma OneMoreWorld(keys: seq<string>, k: string)
    ensures WorldsIn(keys + [k]) == WorldsIn(keys) + (if WorldOf(k).Some? then {WorldOf(k).value} else {})
  {
    hide WorldOf;
    assert k in keys + [k];
  }

  lemma WorldsAreIn(db: Db)
    ensures WorldsIn(ScanPrefix(db, WORLD)) == Worlds(db)
  {
    hide WorldOf, Sorted;
  }

  function NamedKeys(c: Codec, db: Db, ids: seq<AtomId>, keys: seq<string>): seq<string> {
    Keep((k: string) => FrameNames(c, db, ids, k), keys)
  }

  function RemovedSoFar(c: Codec, db: Db, ids: seq<AtomId>, keys: seq<string>): Db {
    Without(db, NamedKeys(c, db, ids, keys))
  }

  lemma NoneRemoved(c: Codec, db: Db, ids: seq<AtomId>)
    ensures RemovedSoFar(c, db, ids, []) == db && NamedKeys(c, db, ids, []) == []
  {
  }

  /** The removal loop, one key on: until its turn a key is still there, unchanged. */
  lemma RemovedOneMore(c: Codec, db: Db, w: WorldKey, ids: seq<AtomId>, j: nat)
    requires j < |ScanPrefix(db, LogPrefix(w))|
    ensures var keys := ScanPrefix(db, LogPrefix(w));
            var k := keys[j];
            var before := RemovedSoFar(c, db, ids, keys[..j]);
            var frame := c.decodeFrame(db[k]);
            var named := frame.Some? && frame.value.atomId in ids;
            && k in before && before[k] == db[k]
            && RemovedSoFar(c, db, ids, keys[..j + 1]) == (if named then before - {k} else before)
            && |NamedKeys(c, db, ids, keys[..j + 1])|
               == |NamedKeys(c, db, ids, keys[..j])| + (if named then 1 else 0)
  {
    hide LogPrefix, Keep, Sorted, Without;
    var keys := ScanPrefix(db, LogPrefix(w));
    AscendingDistinct(keys);
    assert keys[..j + 1] == keys[..j] + [keys[j]];
    assert keys[j] in keys && keys[j] !in keys[..j];
    KeepSnoc((k: string) => FrameNames(c, db, ids, k), keys[..j], keys[j]);
    WithoutOneMore(db, NamedKeys(c, db, ids, keys[..j]), keys[j]);
  }

  /** Removing one more key; until then it is still there, unchanged. */
  lemma WithoutOneMore(db: Db, gone: seq<string>, k: string)
    ensures Without(db, gone) - {k} == Without(db, gone + [k])
    ensures k in db && k !in gone ==> k in Without(db, gone) && Without(db, gone)[k] == db[k]
  {
  }

  lemma GetByIdsStep(c: Codec, db: Db, ids: seq<AtomId>)
    ensures GetByIds(c, db, ids)
         == if ids == [] then Ok([])
            else if Lookup(c, db, ids[0]).Err? then Err(Lookup(c, db, ids[0]).error)
            else Prepend(Listing(Lookup(c, db, ids[0]).value), GetByIds(c, db, ids[1..]))
  {
    hide Lookup;
  }

  lemma PrependNothing(r: Result<seq<Atom>, StorageError>)
    ensures Prepend([], r) == r
  {
    if r.Ok? { assert [] + r.value == r.value; }
  }

  lemma PrependAll(x: seq<Atom>)
    ensures Prepend(x, Ok([])) == Ok(x)
  {
    assert x + [] == x;
  }

  lemma PrependFailure(x: seq<Atom>, e: StorageError)
    ensures Prepend(x, Err(e)) == Err(e)
  {
  }

  lemma PrependTwice(x: seq<Atom>, y: seq<Atom>, r: Result<seq<Atom>, StorageError>)
    ensures Prepend(x, Prepend(y, r)) == Prepend(x + y, r)
  {
    if r.Ok? { assert x + (y + r.value) == x + y + r.value; }
  }

  lemma WithoutTwice(db: Db, x: seq<string>, y: seq<string>)
    ensures Without(Without(db, x), y) == Without(db, x + y)
  {
  }

  lemma WithoutPair(db: Db, x: string, y: string)
    ensures Without(db, [x, y]) == db - {x} - {y}
  {
  }

  lemma ApplyThree(db: Db, writes: seq<Write>)
    requires |writes| == 3
    ensures Apply(db, writes)
         == db[writes[0].key := writes[0].value][writes[1].key := writes[1].value][writes[2].key := writes[2].value]
  {
    var d1 := db[writes[0].key := writes[0].value];
    var d2 := d1[writes[1].key := writes[1].value];
    assert Apply(db, writes) == Apply(d1, writes[1..]);
    assert Apply(d1, writes[1..]) == Apply(d2, writes[2..]);
    assert Apply(d2, writes[2..]) == Apply(d2[writes[2].key := writes[2].value], []);
  }

  /** The inserts of a batch are the inserts of its first atom, then those of the rest. */
  lemma AppendStep(c: Codec, db: Db, w: WorldKey, n: nat, atoms: seq<Atom>)
    requires atoms != [] && atoms[0].world == w
    ensures Apply(db, AppendWrites(c, w, n, atoms))
         == Apply(PutAtom(c, db, w, n, atoms[0]), AppendWrites(c, w, n + 1, atoms[1..]))
  {
    ApplyConcat(db, AtomWrites(c, w, n, atoms[0]), AppendWrites(c, w, n + 1, atoms[1..]));
    ApplyThree(db, AtomWrites(c, w, n, atoms[0]));
  }

  /** An exhausted batch, or an atom of another world, ends the inserts. */
  lemma AppendStop(c: Codec, db: Db, w: WorldKey, n: nat, atoms: seq<Atom>)
    requires atoms == [] || atoms[0].world != w
    ensures Apply(db, AppendWrites(c, w, n, atoms)) == db
  {
  }

  /** What is below one slash-free world's log prefix is below no other's, and is never a body. */
  lemma LogsApart(w: WorldKey, v: WorldKey, k: string)
    requires Plain(w) && Plain(v) && w != v && Below(LogPrefix(v), k)
    ensures !Below(LogPrefix(w), k)
  {
    if Below(LogPrefix(w), k) {
      assert k == LogPrefix(v) + k[|LogPrefix(v)|..];
      assert k == LogPrefix(w) + k[|LogPrefix(w)|..];
      Separate(v, LOG, k[|LogPrefix(v)|..], w, LOG, k[|LogPrefix(w)|..]);
    }
  }

  /** Repairing other discovered worlds first does not change what repairing `w` removes. */
  lemma RepairIndependent(c: Codec, db: Db, gone: set<string>, w: WorldKey)
    requires Plain(w)
    requires forall k :: k in gone ==> exists v :: v != w && Plain(v) && Below(LogPrefix(v), k)
    ensures Doomed(c, db - gone, w) == Doomed(c, db, w)
  {
    forall k | Below(LogPrefix(w), k)
      ensures k !in gone
    {
      if k in gone {
        var v :| v != w && Plain(v) && Below(LogPrefix(v), k);
        LogsApart(v, w, k);
      }
    }
    forall id
      ensures AtomKey(w, id) !in gone
    {
      if AtomKey(w, id) in gone {
        var v :| v != w && Plain(v) && Below(LogPrefix(v), AtomKey(w, id));
        AtomKeyNotUnderLog(w, id, v);
      }
    }
    ScanSame(db, db - gone, LogPrefix(w));
    FirstBadSame(c, db, db - gone, w, ScanPrefix(db, LogPrefix(w)));
  }

  lemma WorldsAreSlashFree(db: Db, w: WorldKey)
    requires w in Worlds(db)
    ensures '/' !in w
  {
  }

  lemma RepairOneMore(c: Codec, db: Db, visited: set<WorldKey>, w: WorldKey)
    requires w in Worlds(db) && visited <= Worlds(db) && w !in visited
    ensures RepairWorld(c, db - DoomedIn(c, db, visited), w) == db - DoomedIn(c, db, visited + {w})
  {
    hide LogPrefix, Worlds, Doomed, WorldOf, Plain;
    var gone := DoomedIn(c, db, visited);
    WorldsAreSlashFree(db, w);
    SlashFreeIsPlain(w);
    forall k | k in gone
      ensures exists v :: v != w && Plain(v) && Below(LogPrefix(v), k)
    {
      var v :| v in visited && k in Doomed(c, db, v);
      WorldsAreSlashFree(db, v);
      SlashFreeIsPlain(v);
    }
    RepairIndependent(c, db, gone, w);
    assert DoomedIn(c, db, visited + {w}) == gone + Doomed(c, db, w);
  }

  /** The first bad frame depends only on the frames walked and on the bodies of the world. */
  lemma {:induction false} FirstBadSame(c: Codec, db: Db, db': Db, w: WorldKey, keys: seq<string>)
    requires forall k :: k in keys ==> k in db && k in db' && db[k] == db'[k]
    requires forall id :: AtomKey(w, id) in db <==> AtomKey(w, id) in db'
    requires forall id :: AtomKey(w, id) in db ==> db[AtomKey(w, id)] == db'[AtomKey(w, id)]
    ensures FirstBad(c, db', w, keys) == FirstBad(c, db, w, keys)
  {
    hide AtomKey, SeqOf;
    if keys != [] {
      assert keys[0] in keys && forall k :: k in keys[1..] ==> k in keys;
      FirstBadSame(c, db, db', w, keys[1..]);
    }
  }

  /** A cleared index hides no world and accounts for nothing. */
  lemma IndexCleared(c: Codec, db: Db, db': Db)
    requires db' == db - set k | k in db && Below(INDEX, k)
    ensures SameOutsideIndex(db, db') && Worlds(db') == Worlds(db) && IndexFrom(c, db, {}, db')
  {
    assert forall id :: Below(INDEX, IndexKey(id));
    forall k | Below(WORLD, k) ensures !Below(INDEX, k) { assert k[0] == 'w'; }
  }

  lemma ListedSame(c: Codec, start: Db, db: Db, w: WorldKey, k: string)
    requires SameOutsideIndex(start, db) && k in ScanPrefix(db, LogPrefix(w))
    ensures k in db && Listed(c, start, w, k) == Listed(c, db, w, k)
    ensures Listed(c, db, w, k) <==> SeqOf(k).Some? && c.decodeFrame(db[k]).Some?
    ensures !Below(INDEX, k)
  {
    LogKeyNotIndex(w, k);
  }

  lemma EntriesOfWorld(c: Codec, db: Db, w: WorldKey, keys: seq<string>)
    requires w in Worlds(db) && keys == ScanPrefix(db, LogPrefix(w))
    ensures forall e :: e in Entries(c, db) && e.0 == w <==> e.0 == w && e.1 in keys && Listed(c, db, w, e.1)
  {
  }

  lemma LogsOutsideIndex(db: Db, db': Db, w: WorldKey)
    requires SameOutsideIndex(db, db')
    ensures ScanPrefix(db', LogPrefix(w)) == ScanPrefix(db, LogPrefix(w))
  {
    forall k | Below(LogPrefix(w), k) ensures !Below(INDEX, k) { LogKeyNotIndex(w, k); }
    ScanSame(db, db', LogPrefix(w));
  }

  /** Recording one more frame keeps the index accounted for. */
  lemma IndexOneMore(c: Codec, start: Db, done: set<(WorldKey, string)>, db: Db, w: WorldKey, k: string)
    requires SameOutsideIndex(start, db) && IndexFrom(c, start, done, db)
    requires !Below(INDEX, k) && Listed(c, db, w, k)
    ensures k in db && c.decodeFrame(db[k]).Some? && SeqOf(k).Some?
    ensures var id := ListedId(c, db, k);
            var db' := db[IndexKey(id) := c.encodeIndex(IndexEntry(w, SeqOf(k).value))];
            SameOutsideIndex(start, db') && IndexFrom(c, start, done + {(w, k)}, db')
  {
    var id := ListedId(c, db, k);
    var db' := db[IndexKey(id) := c.encodeIndex(IndexEntry(w, SeqOf(k).value))];
    assert Names(c, start, (w, k), id) && EntryValue(c, (w, k), db'[IndexKey(id)]);
    forall id' | IndexKey(id') in db'
      ensures exists e :: e in done + {(w, k)} && Names(c, start, e, id') && EntryValue(c, e, db'[IndexKey(id')])
    {
      if id' == id {
        assert (w, k) in done + {(w, k)};
      } else {
        assert IndexKey(id') != IndexKey(id) by {
          if IndexKey(id') == IndexKey(id) { IndexKeyInjective(id', id); }
        }
        var e :| e in done && Names(c, start, e, id') && EntryValue(c, e, db[IndexKey(id')]);
        assert e in done + {(w, k)};
      }
    }
  }

  /** Reopening always leaves some store: the premises about reopened stores can be met. */
  lemma ReopenExists(c: Codec, db: Db)
    ensures exists db' :: Reopened(c, db, db')
  {
    hide Repair;
    var mid := Repair(c, db);
    var cleared := mid - set k | k in mid && Below(INDEX, k);
    IndexCleared(c, mid, cleared);
    EntriesVisited(c, mid);
    var db' := IndexBuilt(c, mid, cleared, {}, Entries(c, mid));
    assert {} + Entries(c, mid) == Entries(c, mid);
    assert Reopened(c, db, db');
  }

  lemma EntriesVisited(c: Codec, db: Db)
    ensures forall e :: e in Entries(c, db) ==> Listed(c, db, e.0, e.1) && !Below(INDEX, e.1)
  {
    hide Worlds, SeqOf;
    forall e | e in Entries(c, db) ensures !Below(INDEX, e.1) { LogKeyNotIndex(e.0, e.1); }
  }

  lemma {:induction false} IndexBuilt(
    c: Codec, start: Db, db: Db, done: set<(WorldKey, string)>, todo: set<(WorldKey, string)>) returns (db': Db)
    requires SameOutsideIndex(start, db) && IndexFrom(c, start, done, db)
    requires forall e :: e in todo ==> Listed(c, start, e.0, e.1) && !Below(INDEX, e.1)
    ensures SameOutsideIndex(start, db') && IndexFrom(c, start, done + todo, db')
    decreases todo
  {
    hide IndexFrom, SeqOf, IndexKey, LogPrefix;
    if todo == {} {
      assert done + todo == done;
      db' := db;
    } else {
      var e :| e in todo;
      assert Listed(c, db, e.0, e.1);
      IndexOneMore(c, start, done, db, e.0, e.1);
      var entry := c.encodeIndex(IndexEntry(e.0, SeqOf(e.1).value));
      assert e == (e.0, e.1);
      db' := IndexBuilt(c, start, db[IndexKey(ListedId(c, db, e.1)) := entry], done + {e}, todo - {e});
      assert done + {e} + (todo - {e}) == done + todo;
    }
  }
}
