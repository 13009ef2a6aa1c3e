/** Lookup by id against what is stored, for any contents of the index; and where the two part. */
module SledLookup {
  import opened Prelude
  import opened Text
  import opened OrderedMap
  import opened Atoms
  import opened SledKeys
  import opened SledStore
  import opened SledStorage
  import opened SledLogs
  import opened SledCrash
  import opened SledRepair
  import opened SledDelete
  import opened SledIndex

  /** The worlds a lookup tries: every slash-free one, and the one the index names for the id. */
  ghost predicate Tried(c: Codec, db: Db, id: AtomId, w: WorldKey) {
    '/' !in w
    || (IndexKey(id) in db && c.decodeIndex(db[IndexKey(id)]).Some? && c.decodeIndex(db[IndexKey(id)]).value.world == w)
  }

  /** Some world that a lookup tries stores a body under the id. */
  ghost predicate Reachable(c: Codec, db: Db, id: AtomId) {
    exists w :: Tried(c, db, id, w) && AtomKey(w, id) in db
  }

  ghost predicate BodyOf(c: Codec, db: Db, id: AtomId, a: Atom) {
    exists w :: Tried(c, db, id, w) && AtomKey(w, id) in db && c.decodeAtom(db[AtomKey(w, id)]) == Some(a)
  }

  ghost predicate UnreadableBody(c: Codec, db: Db, id: AtomId) {
    exists w :: Tried(c, db, id, w) && AtomKey(w, id) in db && c.decodeAtom(db[AtomKey(w, id)]) == None
  }

  lemma SegmentOneOf(w: WorldKey, id: AtomId)
    requires '/' !in w
    ensures SegmentOne(AtomKey(w, id)) == w
  {
    WorldOfMarked(w, ATOMS, id);
  }

  lemma AtomKeyEnds(w: WorldKey, id: AtomId)
    ensures EndsWith(AtomKey(w, id), ATOMS + id) && Below(WORLD, AtomKey(w, id))
  {
    assert AtomKey(w, id) == (WORLD + w) + (ATOMS + id);
  }

  lemma {:induction false} SearchMeaning(c: Codec, db: Db, id: AtomId, keys: seq<string>)
    requires forall k :: k in keys ==> k in db
    ensures var r := SearchKeys(c, db, id, keys);
            && (r.Ok? && r.value.Some? ==> BodyOf(c, db, id, r.value.value))
            && (r.Err? ==> UnreadableBody(c, db, id))
            && (r == Ok(None) <==>
                  forall k :: k in keys && EndsWith(k, ATOMS + id) ==> AtomKey(SegmentOne(k), id) !in db)
  {
    hide AtomKey, SegmentOne, EndsWith;
    if keys != [] {
      assert keys == [keys[0]] + keys[1..];
      SearchMeaning(c, db, id, keys[1..]);
    }
  }

  /**
   Exactly when a lookup finds nothing, whatever the index holds; what it finds is a stored body
   under the id asked for; and it fails only on an unreadable one.
   */
  lemma LookupMeaning(c: Codec, db: Db, id: AtomId)
    ensures var r := Lookup(c, db, id);
            && (r == Ok(None) <==> !Reachable(c, db, id))
            && (r.Ok? && r.value.Some? ==> BodyOf(c, db, id, r.value.value))
            && (r.Err? ==> UnreadableBody(c, db, id))
  {
    hide AtomKey, IndexKey, SegmentOne, EndsWith, Below, Sorted;
    var keys := ScanPrefix(db, WORLD);
    SearchMeaning(c, db, id, keys);
    forall w | '/' !in w && AtomKey(w, id) in db
      ensures AtomKey(w, id) in keys && EndsWith(AtomKey(w, id), ATOMS + id) && SegmentOne(AtomKey(w, id)) == w
    {
      AtomKeyEnds(w, id);
      SegmentOneOf(w, id);
    }
  }

  /** Bodies come back in request order, one for each reachable id and none for the others. */
  lemma {:induction false} GetByIdsMeaning(c: Codec, db: Db, ids: seq<AtomId>)
    ensures var r := GetByIds(c, db, ids);
            var found := Keep((id: AtomId) => Reachable(c, db, id), ids);
            && (r.Ok? ==> |r.value| == |found|
                          && forall i :: 0 <= i < |found| ==> BodyOf(c, db, found[i], r.value[i]))
            && (r.Err? ==> exists id :: id in ids && UnreadableBody(c, db, id))
  {
    hide Lookup, Reachable, BodyOf, UnreadableBody, Keep, GetByIds;
    var reachable := (id: AtomId) => Reachable(c, db, id);
    GetByIdsStep(c, db, ids);
    if ids == [] {
      KeepNone(reachable, ids);
    } else {
      var rest := ids[1..];
      assert ids == [ids[0]] + rest && ids[0] in ids && forall id :: id in rest ==> id in ids;
      LookupMeaning(c, db, ids[0]);
      GetByIdsMeaning(c, db, rest);
      KeepCons(reachable, ids[0], rest);
      var first := Lookup(c, db, ids[0]);
      if first.Ok? && GetByIds(c, db, rest).Ok? {
        Paired(c, db, Keep(reachable, rest), GetByIds(c, db, rest).value, ids[0], first.value);
      }
    }
  }

  lemma Paired(c: Codec, db: Db, ids: seq<AtomId>, atoms: seq<Atom>, id: AtomId, found: Option<Atom>)
    requires |ids| == |atoms| && forall i :: 0 <= i < |ids| ==> BodyOf(c, db, ids[i], atoms[i])
    requires found.Some? ==> BodyOf(c, db, id, found.value)
    ensures var ids', atoms' := if found.Some? then [id] + ids else ids, Listing(found) + atoms;
            |ids'| == |atoms'| && forall i :: 0 <= i < |ids'| ==> BodyOf(c, db, ids'[i], atoms'[i])
  {
    hide BodyOf;
    if found.None? { assert [] + atoms == atoms; }
  }

  // ---------------------------------------------------------------- where lookup and log part

  /**
   An append torn between a body and its frame: the reopened log lacks the atom, yet a lookup does
   not come back empty. Remote ingest skips ids that a lookup finds, so the atom stays missing.
   */
  lemma OrphanBodyIsFound(c: Codec, db: Db, w: WorldKey, atoms: seq<Atom>, i: nat, db': Db)
    requires c.RoundTrips() && LogInv(c, db) && FreshBatch(c, db, w, atoms) && '/' !in w && i < |atoms|
    requires 3 * i + 1 <= |AppendWrites(c, w, NextSeq(db, w), atoms)|
    requires Reopened(c, Apply(db, AppendWrites(c, w, NextSeq(db, w), atoms)[..3 * i + 1]), db')
    ensures !HasId(Log(c, db', w), atoms[i].id)
    ensures Lookup(c, db', atoms[i].id) != Ok(None)
  {
    hide Log, NextSeq, LogInv, Plain, AtomKey, Reopened, AppendWrites, HasId;
    var s := NextSeq(db, w);
    CrashRecovery(c, db, w, atoms, 3 * i + 1, db');
    NotInPrefix(c, db, w, atoms, i);
    assert Landed(3 * i + 1) == i;
    TornAppend(c, db, w, atoms, 3 * i + 1);
    BodyWritten(c, w, s, atoms, i);
    var writes := AppendWrites(c, w, s, atoms)[..3 * i + 1];
    assert writes == writes[..3 * i] + [Put(AtomKey(w, atoms[i].id), c.encodeAtom(atoms[i]))];
    LastWriteStays(db, writes[..3 * i], AtomKey(w, atoms[i].id), c.encodeAtom(atoms[i]));
    AtomKeyNotIndex(w, atoms[i].id);
    ReopenKeepsLogs(c, Apply(db, writes), db');
    LookupMeaning(c, db', atoms[i].id);
  }

  lemma NotInPrefix(c: Codec, db: Db, w: WorldKey, atoms: seq<Atom>, i: nat)
    requires FreshBatch(c, db, w, atoms) && i < |atoms|
    ensures !HasId(Log(c, db, w) + atoms[..i], atoms[i].id)
  {
    hide Log, NextSeq, Plain;
    var log := Log(c, db, w);
    assert atoms[i] in atoms;
    forall j | 0 <= j < |log + atoms[..i]|
      ensures (log + atoms[..i])[j].id != atoms[i].id
    {
      if j >= |log| { assert atoms[j - |log|].id != atoms[i].id; }
    }
  }

  lemma {:induction false} BodyWritten(c: Codec, w: WorldKey, n: nat, atoms: seq<Atom>, i: nat)
    requires i < |atoms| && forall a :: a in atoms ==> a.world == w
    ensures |AppendWrites(c, w, n, atoms)| == 3 * |atoms|
    ensures AppendWrites(c, w, n, atoms)[3 * i] == Put(AtomKey(w, atoms[i].id), c.encodeAtom(atoms[i]))
    decreases |atoms|
  {
    hide AtomKey, LogKey, IndexKey;
    AppendWritesLength(c, w, n, atoms);
    assert atoms[0] in atoms && forall a :: a in atoms[1..] ==> a in atoms;
    var first := AtomWrites(c, w, n, atoms[0]);
    var rest := AppendWrites(c, w, n + 1, atoms[1..]);
    assert AppendWrites(c, w, n, atoms) == first + rest;
    if i > 0 {
      BodyWritten(c, w, n + 1, atoms[1..], i - 1);
      assert (first + rest)[3 * i] == rest[3 * (i - 1)];
    }
  }

  lemma LastWriteStays(db: Db, writes: seq<Write>, key: string, value: Value)
    ensures key in Apply(db, writes + [Put(key, value)]) && Apply(db, writes + [Put(key, value)])[key] == value
  {
    ApplyConcat(db, writes, [Put(key, value)]);
  }

  /**
   After any reopening, an atom logged in a world with a slash in its name can no longer be looked
   up by id, unless some slash-free world happens to store a body under the same id.
   */
  lemma TenantAtomsUnreachable(c: Codec, db: Db, db': Db, w: WorldKey, id: AtomId)
    requires c.RoundTrips() && LogInv(c, db) && Reopened(c, db, db')
    requires Plain(w) && '/' in w && HasId(Log(c, db, w), id)
    requires forall v :: '/' !in v ==> AtomKey(v, id) !in db
    ensures HasId(Log(c, db', w), id) && Lookup(c, db', id) == Ok(None)
  {
    hide Log, LogInv, Plain, AtomKey, Reopened, Reachable, HasId;
    ReopenKeepsLogs(c, db, db');
    ReopenedIndex(c, db, db', id);
    forall v | '/' !in v
      ensures AtomKey(v, id) !in db' && !HasId(Log(c, db', v), id)
    {
      SlashFreeIsPlain(v);
      AtomKeyNotIndex(v, id);
      AbsentBodyNotLogged(c, db', v, id);
    }
    NotReachable(c, db', id);
    LookupMeaning(c, db', id);
  }

  lemma AbsentBodyNotLogged(c: Codec, db: Db, w: WorldKey, id: AtomId)
    requires LogInv(c, db) && Plain(w) && AtomKey(w, id) !in db
    ensures !HasId(Log(c, db, w), id)
  {
    assert WorldInv(c, db, w);
    BodiesPresent(c, db, w);
  }

  lemma NotReachable(c: Codec, db: Db, id: AtomId)
    requires IndexKey(id) !in db && forall v :: '/' !in v ==> AtomKey(v, id) !in db
    ensures !Reachable(c, db, id)
  {
  }

  // ---------------------------------------------------------------- reused ids

  /** The body an append is about to overwrite has the checksum of the new one. */
  predicate SameChecksum(c: Codec, db: Db, w: WorldKey, a: Atom) {
    AtomKey(w, a.id) in db && c.checksum(c.encodeAtom(a)) == c.checksum(db[AtomKey(w, a.id)])
  }

  /**
   Appending an atom whose id its world already logs, at position `i`. Until the next reopening the
   log has the new atom in both places. Reopening keeps it so when the two bodies have the same
   checksum, and in a world with a slash; otherwise it cuts the log at `i`, and the old atom, the new
   one, and every atom between them are gone.
   */
  lemma ReusedId(c: Codec, db: Db, w: WorldKey, a: Atom, i: nat, db': Db)
    requires c.RoundTrips() && LogInv(c, db) && Plain(w) && NextSeq(db, w) < U64_LIMIT && a.world == w
    requires i < |Log(c, db, w)| && Log(c, db, w)[i].id == a.id
    requires Reopened(c, Append(c, db, w, [a]), db')
    ensures Log(c, Append(c, db, w, [a]), w) == Log(c, db, w)[i := a] + [a]
    ensures Log(c, db', w)
         == if '/' in w || SameChecksum(c, db, w, a) then Log(c, db, w)[i := a] + [a] else Log(c, db, w)[..i]
  {
    hide LogPrefix, LogKey, IndexKey, ScanPrefix, Below, NextSeq, Reopened, AtomKey, Canonical, LogOf, PutAtom, AppendWrites, Apply, SameChecksum;
    AppendStep(c, db, w, NextSeq(db, w), [a]);
    AppendStop(c, PutAtom(c, db, w, NextSeq(db, w), a), w, NextSeq(db, w) + 1, [a][1..]);
    assert WorldInv(c, db, w);
    var db1 := PutAtom(c, db, w, NextSeq(db, w), a);
    ReusedLog(c, db, w, a, i);
    if '/' in w {
      SlashedLogReopened(c, db1, db', w);
    } else {
      ReusedKeys(c, db, w, a);
      CanonicalAfterReuse(c, db, w, a);
      ReusedGoodPrefix(c, db, w, a, i);
      ReopenedLog(c, db1, db', w);
      if !SameChecksum(c, db, w, a) { ReusedPrefixLog(c, db, db1, w, i); }
    }
  }

  /** Whatever its frames and bodies are, reopening shows a world with a slash as it was. */
  lemma SlashedLogReopened(c: Codec, db: Db, db': Db, w: WorldKey)
    requires Plain(w) && '/' in w && Reopened(c, db, db')
    ensures Log(c, db', w) == Log(c, db, w)
  {
    hide LogPrefix, AtomKey, Plain, Repair, ScanPrefix, LogOf, IndexFrom, Below;
    SlashedLogNotRepaired(c, db, w);
    RepairTouchesOwnLogs(c, db, w);
    RepairSubmap(c, db);
    WorldsSlashFree(c, db, w);
    LogsOutsideIndex(Repair(c, db), db', w);
    var keys := ScanPrefix(db, LogPrefix(w));
    forall k | k in keys
      ensures AtomAt(c, db', w, k) == AtomAt(c, db, w, k)
    {
      assert k in ScanPrefix(Repair(c, db), LogPrefix(w));
      LogKeyNotIndex(w, k);
      forall id ensures !Below(INDEX, AtomKey(w, id)) { AtomKeyNotIndex(w, id); }
    }
    LogOfSame(c, db, db', w, keys);
  }

  /** In particular, reuse cuts the log exactly when the checksums differ and the world has no slash. */
  lemma ReusedIdTruncates(c: Codec, db: Db, w: WorldKey, a: Atom, i: nat, db': Db)
    requires c.RoundTrips() && LogInv(c, db) && Plain(w) && NextSeq(db, w) < U64_LIMIT && a.world == w
    requires i < |Log(c, db, w)| && Log(c, db, w)[i].id == a.id
    requires Reopened(c, Append(c, db, w, [a]), db')
    ensures Log(c, db', w) == Log(c, db, w)[..i] <==> '/' !in w && !SameChecksum(c, db, w, a)
  {
    hide Log, LogInv, NextSeq, Reopened, SameChecksum, Append;
    ReusedId(c, db, w, a, i, db');
  }

  lemma CanonicalAfterReuse(c: Codec, db: Db, w: WorldKey, a: Atom)
    requires WorldInv(c, db, w) && Plain(w) && NextSeq(db, w) < U64_LIMIT
    ensures CanonicalLog(PutAtom(c, db, w, NextSeq(db, w), a), w)
  {
    hide LogPrefix, LogKey, NextSeq, Canonical, PutAtom, Sound;
    ReusedKeys(c, db, w, a);
  }

  /** The keys after the reuse, and what each leads to. */
  lemma ReusedFrames(c: Codec, db: Db, w: WorldKey, a: Atom, i: nat)
    requires c.RoundTrips() && WorldInv(c, db, w) && Plain(w) && NextSeq(db, w) < U64_LIMIT
    requires i < |Log(c, db, w)| && Log(c, db, w)[i].id == a.id
    ensures var db1 := PutAtom(c, db, w, NextSeq(db, w), a);
            var keys := ScanPrefix(db, LogPrefix(w));
            var keys1 := ScanPrefix(db1, LogPrefix(w));
            && |Log(c, db, w)| == |keys| && |keys1| == |keys| + 1
            && (forall j :: 0 <= j < |keys| ==>
                  && keys1[j] == keys[j]
                  && (GoodKey(c, db1, w, keys[j]) <==> j != i || SameChecksum(c, db, w, a))
                  && AtomAt(c, db1, w, keys[j]) == Some(if j == i then a else Log(c, db, w)[j]))
            && AtomAt(c, db1, w, keys1[|keys|]) == Some(a) && GoodKey(c, db1, w, keys1[|keys|])
  {
    hide LogPrefix, LogKey, IndexKey, ScanPrefix, Below, NextSeq, AtomKey, Canonical, LogOf, PutAtom, GoodKey, Sound, SameChecksum;
    var keys := ScanPrefix(db, LogPrefix(w));
    LogAt(c, db, w);
    LogAtomsAt(c, db, w);
    LogIdsDistinct(c, db, w);
    ReusedKeys(c, db, w, a);
    NewFrame(c, db, w, a);
    forall j | 0 <= j < |keys|
      ensures ScanPrefix(PutAtom(c, db, w, NextSeq(db, w), a), LogPrefix(w))[j] == keys[j]
      ensures var db1 := PutAtom(c, db, w, NextSeq(db, w), a);
              && (GoodKey(c, db1, w, keys[j]) <==> j != i || SameChecksum(c, db, w, a))
              && AtomAt(c, db1, w, keys[j]) == Some(if j == i then a else Log(c, db, w)[j])
    {
      assert keys[j] in keys;
      ReusedOldKey(c, db, w, a, keys[j]);
    }
  }

  /** The frame just appended is good and leads to the new atom. */
  lemma NewFrame(c: Codec, db: Db, w: WorldKey, a: Atom)
    requires c.RoundTrips() && Plain(w)
    ensures var n := NextSeq(db, w);
            var db1 := PutAtom(c, db, w, n, a);
            AtomAt(c, db1, w, LogKey(w, n)) == Some(a) && GoodKey(c, db1, w, LogKey(w, n))
  {
    hide LogKey, IndexKey, AtomKey, NextSeq, Plain;
    KeysDistinct(w, a.id, w, NextSeq(db, w), a.id);
  }

  /** Before any reopening. */
  lemma ReusedLog(c: Codec, db: Db, w: WorldKey, a: Atom, i: nat)
    requires c.RoundTrips() && WorldInv(c, db, w) && Plain(w) && NextSeq(db, w) < U64_LIMIT
    requires i < |Log(c, db, w)| && Log(c, db, w)[i].id == a.id
    ensures Log(c, PutAtom(c, db, w, NextSeq(db, w), a), w) == Log(c, db, w)[i := a] + [a]
  {
    hide LogPrefix, LogKey, ScanPrefix, NextSeq, AtomAt, LogOf, PutAtom, GoodKey, Canonical, Sound, SameChecksum;
    ReusedFrames(c, db, w, a, i);
    var db1 := PutAtom(c, db, w, NextSeq(db, w), a);
    var keys1 := ScanPrefix(db1, LogPrefix(w));
    forall k | k in keys1 ensures AtomAt(c, db1, w, k).Some? {
      var j :| 0 <= j < |keys1| && keys1[j] == k;
    }
    LogOfAt(c, db1, w, keys1);
  }

  /** The good prefix after reusing the id at position `i`: everything, or what precedes it. */
  lemma ReusedGoodPrefix(c: Codec, db: Db, w: WorldKey, a: Atom, i: nat)
    requires c.RoundTrips() && WorldInv(c, db, w) && Plain(w) && NextSeq(db, w) < U64_LIMIT
    requires i < |Log(c, db, w)| && Log(c, db, w)[i].id == a.id
    ensures var db1 := PutAtom(c, db, w, NextSeq(db, w), a);
            var keys := ScanPrefix(db, LogPrefix(w));
            var keys1 := ScanPrefix(db1, LogPrefix(w));
            && i < |keys|
            && GoodPrefix(c, db1, w, keys1) == (if SameChecksum(c, db, w, a) then keys1 else keys[..i])
            && (forall j :: 0 <= j < i ==> AtomAt(c, db1, w, keys[j]) == AtomAt(c, db, w, keys[j]))
  {
    hide LogPrefix, LogKey, IndexKey, ScanPrefix, Below, NextSeq, AtomKey, Canonical, Log, AtomAt, GoodPrefix, PutAtom, GoodKey, Sound, SameChecksum;
    var db1 := PutAtom(c, db, w, NextSeq(db, w), a);
    var keys := ScanPrefix(db, LogPrefix(w));
    var keys1 := ScanPrefix(db1, LogPrefix(w));
    LogAtomsAt(c, db, w);
    ReusedFrames(c, db, w, a, i);
    if SameChecksum(c, db, w, a) {
      GoodPrefixIs(c, db1, w, keys1, |keys1|);
      assert keys1[..|keys1|] == keys1;
    } else {
      GoodPrefixIs(c, db1, w, keys1, i);
      assert keys1[..i] == keys[..i];
    }
  }

  lemma ReusedPrefixLog(c: Codec, db: Db, db1: Db, w: WorldKey, i: nat)
    requires WorldInv(c, db, w)
    requires var keys := ScanPrefix(db, LogPrefix(w));
             i <= |keys| && forall j :: 0 <= j < i ==> AtomAt(c, db1, w, keys[j]) == AtomAt(c, db, w, keys[j])
    ensures i <= |Log(c, db, w)| && LogOf(c, db1, w, ScanPrefix(db, LogPrefix(w))[..i]) == Log(c, db, w)[..i]
  {
    hide LogPrefix, ScanPrefix, AtomAt, LogOf, Canonical;
    var keys := ScanPrefix(db, LogPrefix(w));
    LogAt(c, db, w);
    forall k | k in keys[..i]
      ensures AtomAt(c, db1, w, k) == AtomAt(c, db, w, k)
    {
      var j :| 0 <= j < i && keys[..i][j] == k;
    }
    LogOfSame(c, db, db1, w, keys[..i]);
    assert keys == keys[..i] + keys[i..];
    LogOfConcat(c, db, w, keys[..i], keys[i..]);
    assert forall k :: k in keys[..i] ==> k in keys;
    LogOfAt(c, db, w, keys[..i]);
  }

  lemma ReusedKeys(c: Codec, db: Db, w: WorldKey, a: Atom)
    requires WorldInv(c, db, w) && Plain(w) && NextSeq(db, w) < U64_LIMIT
    ensures ScanPrefix(PutAtom(c, db, w, NextSeq(db, w), a), LogPrefix(w))
         == ScanPrefix(db, LogPrefix(w)) + [LogKey(w, NextSeq(db, w))]
    ensures Canonical(w, LogKey(w, NextSeq(db, w)))
  {
    hide LogPrefix, LogKey, IndexKey, AtomKey, Sorted, Below, NextSeq;
    var n := NextSeq(db, w);
    var db1 := db[AtomKey(w, a.id) := c.encodeAtom(a)];
    var frame := c.encodeFrame(FrameFor(c, a));
    AtomKeyNotUnderLog(w, a.id, w);
    IndexKeyApart(a.id, w);
    LogKeyUnderPrefix(w, n, w);
    SeqOfLogKey(w, n);
    NextSeqIsNew(c, db, w);
    KeysDistinct(w, a.id, w, n, a.id);
    ScanSame(db, db1, LogPrefix(w));
    ScanInsertLast(db1, LogPrefix(w), LogKey(w, n), frame);
    ScanSame(db1[LogKey(w, n) := frame], PutAtom(c, db, w, n, a), LogPrefix(w));
  }

  lemma ReusedOldKey(c: Codec, db: Db, w: WorldKey, a: Atom, k: string)
    requires WorldInv(c, db, w) && Plain(w) && NextSeq(db, w) < U64_LIMIT && k in ScanPrefix(db, LogPrefix(w))
    requires c.RoundTrips()
    ensures var db1 := PutAtom(c, db, w, NextSeq(db, w), a);
            && (GoodKey(c, db1, w, k) <==> ListedId(c, db, k) != a.id || SameChecksum(c, db, w, a))
            && AtomAt(c, db1, w, k) == (if ListedId(c, db, k) != a.id then AtomAt(c, db, w, k) else Some(a))
  {
    hide LogPrefix, LogKey, IndexKey, AtomKey, Sorted, Below, NextSeq, Canonical;
    var n := NextSeq(db, w);
    var id := ListedId(c, db, k);
    NextSeqIsNew(c, db, w);
    AtomKeyNotUnderLog(w, a.id, w);
    IndexKeyApart(a.id, w);
    KeysDistinct(w, id, w, n, a.id);
    KeysDistinct(w, a.id, w, n, a.id);
    if id != a.id && AtomKey(w, id) == AtomKey(w, a.id) { AtomKeyInjective(w, id, w, a.id); }
  }
}
