/**
 One concrete input for each promise that the code does not keep. The conditions are in the modules
 named; here are the smallest stores, runs and policies on which they bite.
 */
module Examples {
  import opened Prelude
  import opened Text
  import opened OrderedMap
  import opened Atoms
  import opened SledKeys
  import opened SledStore
  import opened SledStorage
  import opened SledLogs
  import opened SledScan
  import opened SledCrash
  import opened SledRepair
  import opened SledDelete
  import opened SledIndex
  import opened SledLookup
  import opened SledOrphans
  import opened EngineStore
  import P = Policy
  import Gc
  import L = Lifecycle
  import I = Inbox
  import K = Gatekeeper
  import R = Reflex

  function Sample(w: WorldKey, id: AtomId, payload: string): Atom {
    Atom(id, w, "worker", Observation, "2024-01-01T00:00:00Z", 0.5, payload, None, [], [], [])
  }

  /** A checksum that tells payloads of different lengths apart. */
  function PayloadLength(v: Value): nat { if v.Body? then |v.atom.payload| else 0 }

  function Plainly(): Codec { PlainCodec((v: Value) => 0, PayloadLength) }

  function StoreOf(w: WorldKey, atoms: seq<Atom>): Db { Append(Plainly(), map[], w, atoms) }

  lemma EmptyStart(w: WorldKey, atoms: seq<Atom>)
    requires Plain(w) && UniqueIds(atoms) && |atoms| <= U64_LIMIT && forall a :: a in atoms ==> a.world == w
    ensures Plainly().RoundTrips() && Intact(Plainly(), map[]) && NextSeq(map[], w) == 0
    ensures FreshBatch(Plainly(), map[], w, atoms)
    ensures Log(Plainly(), map[], w) == [] && forall id :: !LoggedAnywhere(Plainly(), map[], id)
  {
    hide LogPrefix, Plain;
    EmptyIntact(Plainly());
    forall v ensures ScanPrefix<Value>(map[], LogPrefix(v)) == [] {
      AscendingUnique(ScanPrefix<Value>(map[], LogPrefix(v)), []);
    }
  }

  /** A store with one batch of atoms, appended in full. */
  lemma Appended(w: WorldKey, atoms: seq<Atom>)
    requires Plain(w) && UniqueIds(atoms) && |atoms| <= U64_LIMIT && forall a :: a in atoms ==> a.world == w
    ensures var db := StoreOf(w, atoms);
            Plainly().RoundTrips() && LogInv(Plainly(), db) && Log(Plainly(), db, w) == atoms
    ensures IndexInv(Plainly(), StoreOf(w, atoms)) && GloballyUnique(Plainly(), StoreOf(w, atoms))
    ensures NoOrphans(Plainly(), StoreOf(w, atoms))
  {
    hide Log, Plain, LogInv, IndexInv, GloballyUnique, NoOrphans, NextSeq, Append, AppendWrites, Apply, LoggedAnywhere, UniqueIds;
    hide Codec.RoundTrips;
    EmptyStart(w, atoms);
    WholeAppend(Plainly(), map[], w, atoms);
    AppendKeepsIndex(Plainly(), map[], w, atoms);
    assert [] + atoms == atoms;
    TornOrphans(Plainly(), map[], w, atoms, 3 * |atoms|);
    WholeWrites(w, atoms);
  }

  lemma WholeWrites(w: WorldKey, atoms: seq<Atom>)
    requires |AppendWrites(Plainly(), w, NextSeq(map[], w), atoms)| == 3 * |atoms|
    ensures Apply(map[], AppendWrites(Plainly(), w, NextSeq(map[], w), atoms)[..3 * |atoms|]) == StoreOf(w, atoms)
  {
    hide NextSeq, AppendWrites, Apply;
    var writes := AppendWrites(Plainly(), w, NextSeq(map[], w), atoms);
    assert writes[..3 * |atoms|] == writes;
  }

  /** Tenant worlds have plain names. */
  lemma TenantIsPlain()
    ensures Plain("tenant:acme/alpha") && '/' in "tenant:acme/alpha"
  {
    NoMarkerIn("tenant:acme/alpha/", ATOMS);
    NoMarkerIn("tenant:acme/alpha/", LOG);
    assert "tenant:acme/alpha" + "/" == "tenant:acme/alpha/";
    assert "tenant:acme/alpha"[11] == '/';
  }

  lemma NoMarkerIn(s: string, m: string)
    requires s == "tenant:acme/alpha/" && IsMarker(m)
    ensures !Occurs(m, s)
  {
    forall i
      ensures !OccursAt(m, s, i)
    {
      if 0 <= i && i + |m| <= |s| {
        var t := s[i..i + |m|];
        assert t[0] == s[i] && t[1] == s[i + 1] && t[3] == s[i + 3];
      }
    }
  }

  /** An atom of a tenant world: found by id before a reopening, and not after. */
  lemma TenantAtomLost(db': Db)
    requires Reopened(Plainly(), StoreOf("tenant:acme/alpha", [Sample("tenant:acme/alpha", "1", "")]), db')
    ensures var a := Sample("tenant:acme/alpha", "1", "");
            && Lookup(Plainly(), StoreOf("tenant:acme/alpha", [a]), "1") == Ok(Some(a))
            && Lookup(Plainly(), db', "1") == Ok(None)
            && a in Log(Plainly(), db', "tenant:acme/alpha")
  {
    hide Log, Plain, LogInv, IndexInv, GloballyUnique, NoOrphans, StoreOf, Reopened, Lookup, Plainly;
    var w := "tenant:acme/alpha";
    TenantIsPlain();
    Appended(w, [Sample(w, "1", "")]);
    LookupAfterReopen(Plainly(), StoreOf(w, [Sample(w, "1", "")]), db', w, Sample(w, "1", ""));
  }

  /** Two atoms, the first deleted, a crash after the first removal, its body: both are gone. */
  lemma BystanderLost(db': Db)
    requires var db := StoreOf("w", [Sample("w", "1", ""), Sample("w", "2", "")]);
             Reopened(Plainly(), Without(db, [AtomKey("w", "1")]), db')
    ensures Log(Plainly(), db', "w") == []
  {
    hide Log, Plain, LogInv, IndexInv, GloballyUnique, NoOrphans, StoreOf, Reopened, Removals, Plainly, AtomKey;
    SlashFreeIsPlain("w");
    var log := [Sample("w", "1", ""), Sample("w", "2", "")];
    Appended("w", log);
    FirstRemoval(StoreOf("w", log), "w", "1");
    CrashedDelete(Plainly(), StoreOf("w", log), "w", ["1"], 1, db');
    assert ["1"][..(1 + 1) / 2] == ["1"] && Dead(["1"], 1) == ["1"];
    assert !Survives(log[0], ["1"]);
  }

  lemma FirstRemoval(db: Db, w: WorldKey, id: AtomId)
    ensures |Removals(Plainly(), db, w, [id])| >= 1 && Removals(Plainly(), db, w, [id])[..1] == [AtomKey(w, id)]
  {
    hide AtomKey, IndexKey, FrameRemovals, Plainly;
    assert BodyRemovals(w, [id])[0] == AtomKey(w, id);
  }

  /** Three atoms, the second body damaged, a repair cut after one removal: the next one leaves a gap. */
  lemma GapLeft()
    ensures var db := StoreOf("w", [Sample("w", "1", ""), Sample("w", "2", ""), Sample("w", "3", "")])
                      - {AtomKey("w", "2")};
            var keys := ScanPrefix(db, LogPrefix("w"));
            && |keys| == 3 && |GoodPrefix(Plainly(), db, "w", keys)| == 1
            && ScanPrefix(RepairWorld(Plainly(), Without(db, keys[1..2]), "w"), LogPrefix("w")) == [keys[0], keys[2]]
  {
    hide Log, Plain, LogInv, IndexInv, GloballyUnique, NoOrphans, StoreOf, Plainly, LogPrefix, AtomKey, ScanPrefix, RepairWorld, GoodKey, GoodPrefix, CanonicalLog, Without;
    SlashFreeIsPlain("w");
    var log := [Sample("w", "1", ""), Sample("w", "2", ""), Sample("w", "3", "")];
    Appended("w", log);
    var whole := StoreOf("w", log);
    var db := whole - {AtomKey("w", "2")};
    Damaged(whole, log, db);
    var keys := ScanPrefix(db, LogPrefix("w"));
    GoodPrefixIs(Plainly(), db, "w", keys, 1);
    RepairCutShort(Plainly(), db, "w", 1);
    assert keys[..1] == [keys[0]] && keys[2..] == [keys[2]];
    GoodPrefixIs(Plainly(), db, "w", keys[2..], 1);
    assert [keys[0]] + [keys[2]] == [keys[0], keys[2]];
    assert [keys[2]][..1] == [keys[2]];
  }

  lemma Damaged(whole: Db, log: seq<Atom>, db: Db)
    requires Plain("w") && LogInv(Plainly(), whole) && Log(Plainly(), whole, "w") == log
    requires log == [Sample("w", "1", ""), Sample("w", "2", ""), Sample("w", "3", "")]
    requires db == whole - {AtomKey("w", "2")}
    ensures var keys := ScanPrefix(db, LogPrefix("w"));
            && CanonicalLog(db, "w") && |keys| == 3
            && GoodKey(Plainly(), db, "w", keys[0]) && !GoodKey(Plainly(), db, "w", keys[1])
            && GoodKey(Plainly(), db, "w", keys[2])
  {
    hide Plain, LogPrefix, AtomKey, Sorted, Canonical, Plainly, Sample, LogOf;
    var c := Plainly();
    assert WorldInv(c, whole, "w");
    LogAt(c, whole, "w");
    AtomKeyNotUnderLog("w", "2", "w");
    ScanSame(whole, db, LogPrefix("w"));
    var keys := ScanPrefix(whole, LogPrefix("w"));
    SampleIds(log);
    forall i | 0 <= i < 3
      ensures Sound(c, whole, "w", keys[i]) && (GoodKey(c, db, "w", keys[i]) <==> log[i].id != "2")
    {
      assert keys[i] in keys;
      OneBodyGone(c, whole, "w", "2", keys[i]);
    }
  }

  lemma SampleIds(log: seq<Atom>)
    requires log == [Sample("w", "1", ""), Sample("w", "2", ""), Sample("w", "3", "")]
    ensures |log| == 3 && log[0].id == "1" && log[1].id == "2" && log[2].id == "3"
  {
  }

  lemma OneBodyGone(c: Codec, db: Db, w: WorldKey, id: AtomId, k: string)
    requires Plain(w) && Sound(c, db, w, k) && Below(LogPrefix(w), k)
    ensures GoodKey(c, db - {AtomKey(w, id)}, w, k) <==> ListedId(c, db, k) != id
  {
    hide Plain, LogPrefix, AtomKey;
    AtomKeyNotUnderLog(w, id, w);
    if AtomKey(w, ListedId(c, db, k)) == AtomKey(w, id) { AtomKeyInjective(w, ListedId(c, db, k), w, id); }
  }

  lemma OneAppended(w: WorldKey, a: Atom)
    requires Plain(w) && a.world == w
    ensures NextSeq(StoreOf(w, [a]), w) == 1
  {
    hide Plain, LogInv, Log, NextSeq, PutAtom, AppendWrites, Apply, Plainly, HasId;
    EmptyStart(w, [a]);
    var c := Plainly();
    assert [a][0] == a && [a][1..] == [];
    AppendStep(c, map[], w, 0, [a]);
    AppendStop(c, PutAtom(c, map[], w, 0, a), w, 1, []);
    assert !HasId(Log(c, map[], w), a.id) by { NobodyIn(a.id); }
    AtomSteps(c, map[], w, a);
  }

  lemma NobodyIn(id: AtomId)
    ensures !HasId([], id)
  {
  }

  /** One atom, its id used again for a longer payload: the next reopening empties the log. */
  lemma ReuseEmptiesLog(db': Db)
    requires Reopened(Plainly(), Append(Plainly(), StoreOf("w", [Sample("w", "1", "")]), "w", [Sample("w", "1", "x")]), db')
    ensures Log(Plainly(), db', "w") == []
  {
    hide Log, Plain, LogInv, IndexInv, GloballyUnique, NoOrphans, StoreOf, Reopened, Append, NextSeq, AtomKey;
    SlashFreeIsPlain("w");
    var a, b := Sample("w", "1", ""), Sample("w", "1", "x");
    Appended("w", [a]);
    OneAppended("w", a);
    var db := StoreOf("w", [a]);
    LoggedBody(Plainly(), db, "w", a);
    assert db[AtomKey("w", "1")] == Body(a) by { DecodesTo(db[AtomKey("w", "1")], a); }
    ReusedId(Plainly(), db, "w", b, 0, db');
    assert [a][..0] == [];
  }

  lemma DecodesTo(v: Value, a: Atom)
    requires Plainly().decodeAtom(v) == Some(a)
    ensures v == Body(a)
  {
  }

  /** One atom, a crash after its body: found by id, logged nowhere. */
  lemma OrphanLeft(db': Db)
    requires Reopened(Plainly(), map[AtomKey("w", "1") := Plainly().encodeAtom(Sample("w", "1", ""))], db')
    ensures Lookup(Plainly(), db', "1") != Ok(None) && !LoggedAnywhere(Plainly(), db', "1")
  {
    hide Log, Plain, LogInv, IndexInv, GloballyUnique, NoOrphans, Reopened, NextSeq, AppendWrites, Apply, Lookup,
         LoggedAnywhere, Plainly, HasId, AtomKey, AtomWrites;
    SlashFreeIsPlain("w");
    var a := Sample("w", "1", "");
    EmptyStart("w", [a]);
    FreshHead(Plainly(), map[], "w", [a]);
    assert [a][0] == a && [a][1 / 3].id == "1";
    TornAtom(Plainly(), map[], "w", 0, a, AppendWrites(Plainly(), "w", 1, [a][1..]), 1);
    TornAppendLookup(Plainly(), map[], "w", [a], 1, db');
  }

  /** A subscription to one tenant's worlds takes in another tenant. */
  lemma OtherTenantMatches()
    ensures I.MatchesWorld("tenant:a" + ":*", "tenant:ab/chat")
  {
    I.NamespaceWildcardIsPrefix("tenant:a", "tenant:ab/chat");
    assert "tenant:ab/chat" == "tenant:a" + "b/chat";
  }

  /** A resume at the very instant of the archive before it is recorded, and the world stays archived. */
  lemma ResumeIgnored(ps: P.Parsers, now: string)
    requires ps.time(now).Some?
    ensures var archived := L.Manage(ps, map[], L.Archive("w"), "1", now, "");
            var resumed := L.Manage(ps, archived, L.Resume("w"), "2", now, "");
            resumed != archived && L.WorldStatus(ps, resumed, "w") == Some(L.ARCHIVED)
  {
    hide L.MetaAtom, L.Latest, L.Metas, L.Idle;
    var first := L.MetaAtom(L.Archive("w"), "1", now, "");
    var second := L.MetaAtom(L.Resume("w"), "2", now, "");
    L.MetaAtomStatus(L.Archive("w"), "1", now, "");
    L.MetaAtomStatus(L.Resume("w"), "2", now, "");
    MetaTimes(now);
    FirstIdle(ps);
    L.MetasSnoc([], first);
    L.MetasSnoc([first], second);
    assert [] + [first] == [first] && [first] + [second] == [first, second];
    TwoMetas(ps, first, second);
    SecondIdle(ps, first);
  }

  lemma MetaTimes(now: string)
    ensures L.MetaAtom(L.Archive("w"), "1", now, "").timestamp == now
    ensures L.MetaAtom(L.Resume("w"), "2", now, "").timestamp == now
  {
  }

  lemma FirstIdle(ps: P.Parsers)
    ensures !L.Idle(ps, map[], L.Archive("w")) && L.Metas([]) == []
  {
  }

  lemma SecondIdle(ps: P.Parsers, first: Atom)
    requires L.Metas([first]) == [first]
    requires L.Latest(ps, [first]).Some? && L.Latest(ps, [first]).value.status == L.ARCHIVED
    ensures !L.Idle(ps, map["w" := [first]], L.Resume("w"))
  {
    hide L.Latest, L.Metas;
  }

  lemma TwoMetas(ps: P.Parsers, first: Atom, second: Atom)
    requires L.IsMeta(first) && L.IsMeta(second) && ps.time(first.timestamp) == ps.time(second.timestamp)
    requires L.StatusOf(first.labels) == Some(L.ARCHIVED)
    ensures L.Latest(ps, [first]).Some? && L.Latest(ps, [first]).value.status == L.ARCHIVED
    ensures L.Latest(ps, [first, second]) == L.Latest(ps, [first])
  {
    assert [first][..0] == [] && [first, second][..1] == [first];
  }

  /** A retention of 2^64 - 1 days does not panic, and expires the newest atom. */
  lemma LargestRetention(ps: P.Parsers, atoms: seq<Atom>, clock: int, a: Atom)
    requires ps.time(a.timestamp) == Some(Gc.LatestTime(ps, atoms, clock))
    ensures var p := P.DEFAULT_POLICY.(retentionDays := Some(U64_LIMIT - 1));
            Gc.Expired(ps, p, Gc.LatestTime(ps, atoms, clock), a) && !Gc.Overflows(U64_LIMIT - 1)
  {
    Gc.NewestExpires(ps, P.DEFAULT_POLICY.(retentionDays := Some(U64_LIMIT - 1)), atoms, clock, a);
    Gc.OverflowRange(U64_LIMIT - 1);
  }

  /** One day more than fits panics on a single unprotected atom. */
  lemma OneDayTooMany(ps: P.Parsers, a: Atom)
    requires ps.time(a.timestamp).Some? && a.labels == [] && a.links == []
    ensures Gc.Panics(ps, P.DEFAULT_POLICY.(retentionDays := Some(Gc.MAX_DAYS + 1)), [a])
    ensures !Gc.Panics(ps, P.DEFAULT_POLICY.(retentionDays := Some(Gc.MAX_DAYS)), [a])
  {
    Gc.OverflowRange(Gc.MAX_DAYS + 1);
    Gc.OverflowRange(Gc.MAX_DAYS);
    assert [a][0] == a && !Gc.Protected([a], a);
  }

  function Setting(w: WorldKey, days: nat): Atom
    requires days < U64_LIMIT
  {
    Sample(w, "0", "").(labels := [P.RETENTION + Padded(days, SEQ_WIDTH)])
  }

  const OLD := "2022-01-01T00:00:00Z"
  const NEW := "2024-01-01T00:00:00Z"

  function Stale(w: WorldKey): Atom { Sample(w, "1", "").(timestamp := OLD) }

  /** A world whose turn panics, beside one whose turn takes an atom. */
  function TwoWorlds(): P.Logs {
    map["p" := [Setting("p", Gc.MAX_DAYS + 1), Sample("p", "2", "")], "l" := [Stale("l"), Sample("l", "3", "")]]
  }

  /** Two worlds to visit: whether the stale atom goes depends on which of them comes first. */
  lemma OrderDecides(ps: P.Parsers, clock: int)
    requires ps.time(OLD).Some? && ps.time(NEW) == Some(ps.time(OLD).value + 730 * 86_400 * 1_000_000_000)
    ensures var logs := TwoWorlds();
            && Gc.IsOrder(["p", "l"], {"p", "l"}) && Gc.IsOrder(["l", "p"], {"p", "l"})
            && Gc.AfterPass(ps, logs, clock, ["p", "l"]) == logs
            && Gc.AfterPass(ps, logs, clock, ["l", "p"]) == logs["l" := [Sample("l", "3", "")]]
  {
    hide Gc.PanicsIn, Gc.Survivors, Gc.Collected, TwoWorlds;
    var logs := TwoWorlds();
    PanickingWorld(ps);
    LosingWorld(ps, clock);
    Gc.ReachedUpTo(ps, logs, [], ["p", "l"]);
    Gc.ReachedUpTo(ps, logs, ["l"], ["p"]);
    assert [] + ["p", "l"] == ["p", "l"] && ["l"] + ["p"] == ["l", "p"];
    Gc.NothingCollected(ps, logs, clock);
    assert (set w | w in Gc.Reached(ps, logs, ["p", "l"])) == {};
    assert (set w | w in Gc.Reached(ps, logs, ["l", "p"])) == {"l"};
    OneCollected(ps, logs, clock);
  }

  lemma OneCollected(ps: P.Parsers, logs: P.Logs, clock: int)
    requires logs == TwoWorlds()
    ensures Gc.Collected(ps, logs, clock, {"l"}) == logs["l" := Gc.Survivors(ps, logs, clock, "l")]
  {
    hide Gc.Survivors, Setting, Stale, Sample;
  }

  lemma LongRetention(ps: P.Parsers, days: nat)
    requires days < U64_LIMIT
    ensures P.ApplyLabel(ps, P.DEFAULT_POLICY, P.RETENTION + Padded(days, SEQ_WIDTH))
         == P.DEFAULT_POLICY.(retentionDays := Some(days))
  {
    hide Padded, ParseU64, P.Strip;
    ParsePadded(days);
    OnlyRetention(Padded(days, SEQ_WIDTH));
  }

  lemma OnlyRetention(days: string)
    ensures var tag := P.RETENTION + days;
            && P.Strip(tag, P.RETENTION) == Some(days)
            && P.Strip(tag, P.RETENTION_MIN) == None && P.Strip(tag, P.MIN_IMPORTANCE) == None
            && P.Strip(tag, P.ALLOW) == None && P.Strip(tag, P.DENY) == None
  {
    var tag := P.RETENTION + days;
    assert tag[|P.RETENTION|..] == days;
    assert tag[7] == 'r' && tag[9] == 't' && tag[17] == 'd';
    assert P.RETENTION_MIN[17] == 'm' && P.MIN_IMPORTANCE[7] == 'm' && P.ALLOW[9] == 'p' && P.DENY[9] == 'p';
  }

  lemma PanickingWorld(ps: P.Parsers)
    requires ps.time(NEW).Some?
    ensures Gc.PanicsIn(ps, TwoWorlds(), "p")
  {
    hide P.ApplyLabel, Gc.Overflows, Padded;
    var logs := TwoWorlds();
    var log := [Setting("p", Gc.MAX_DAYS + 1), Sample("p", "2", "")];
    assert P.LogOf(logs, "p") == log;
    OwnPolicy(ps, logs, "p", log);
    LongRetention(ps, Gc.MAX_DAYS + 1);
    Gc.OverflowRange(Gc.MAX_DAYS + 1);
    TwoAtoms(ps, log);
    assert !Gc.Protected(log, log[1]);
  }

  /** A world of two atoms without policy worlds reads its policy off its own labels. */
  lemma OwnPolicy(ps: P.Parsers, logs: P.Logs, w: WorldKey, log: seq<Atom>)
    requires w in ["p", "l"] && P.POLICY + w !in logs && w in logs && logs[w] == log
    requires forall a :: a in log ==> a.world == w
    ensures P.ParsePolicy(ps, logs, w) == P.Settle(P.ApplyAtoms(ps, P.DEFAULT_POLICY, log))
  {
    hide P.ApplyAtoms, P.Settle;
    KeepAll((a: Atom) => a.world == w, log);
    assert log + [] + [] == log;
  }

  lemma TwoAtoms(ps: P.Parsers, log: seq<Atom>)
    requires |log| == 2
    ensures P.ApplyAtoms(ps, P.DEFAULT_POLICY, log)
         == P.ApplyLabels(ps, P.ApplyLabels(ps, P.DEFAULT_POLICY, log[0].labels), log[1].labels)
  {
    hide P.ApplyLabels, P.ApplyAtoms;
    assert log[1..][0] == log[1] && log[1..][1..] == [];
    Gc.AtomStep(ps, P.DEFAULT_POLICY, log);
    var p := P.ApplyLabels(ps, P.DEFAULT_POLICY, log[0].labels);
    Gc.AtomStep(ps, p, log[1..]);
    Gc.NoAtomsLeft(ps, P.ApplyLabels(ps, p, log[1].labels));
  }

  lemma LosingWorld(ps: P.Parsers, clock: int)
    requires ps.time(OLD).Some? && ps.time(NEW) == Some(ps.time(OLD).value + 730 * 86_400 * 1_000_000_000)
    ensures !Gc.PanicsIn(ps, TwoWorlds(), "l")
    ensures Gc.Survivors(ps, TwoWorlds(), clock, "l") == [Sample("l", "3", "")]
  {
    hide P.ApplyLabel, Gc.Overflows, Padded, Gc.Doomed, P.ApplyAtoms, Keep, P.Strip, P.PolicyAtoms;
    var logs := TwoWorlds();
    var log := [Stale("l"), Sample("l", "3", "")];
    assert P.LogOf(logs, "l") == log;
    OwnPolicy(ps, logs, "l", log);
    TwoAtoms(ps, log);
    Gc.OverflowRange(365);
    var now := Gc.LatestTime(ps, log, clock);
    StaleExpires(ps, log, clock);
    KeepCons((a: Atom) => !Gc.Doomed(ps, P.DEFAULT_POLICY, log, now, a), log[0], [log[1]]);
    KeepCons((a: Atom) => !Gc.Doomed(ps, P.DEFAULT_POLICY, log, now, a), log[1], []);
    assert log == [log[0]] + [log[1]] && [log[1]] + [] == [log[1]];
  }

  lemma StaleExpires(ps: P.Parsers, log: seq<Atom>, clock: int)
    requires ps.time(OLD).Some? && ps.time(NEW) == Some(ps.time(OLD).value + 730 * 86_400 * 1_000_000_000)
    requires log == [Stale("l"), Sample("l", "3", "")]
    ensures var now := Gc.LatestTime(ps, log, clock);
            && Gc.Doomed(ps, P.DEFAULT_POLICY, log, now, log[0])
            && !Gc.Doomed(ps, P.DEFAULT_POLICY, log, now, log[1])
  {
    assert log[1..][0] == log[1] && log[1..][1..] == [];
    assert Gc.LatestOf(ps, log[1..]) == ps.time(NEW);
    assert !Gc.Protected(log, log[0]);
  }

  /** Two questions about different worlds in one instant, at sixty a minute: the second is refused. */
  lemma SecondAskRefused(caps: K.Capabilities, v: WorldKey, w: WorldKey, now: real)
    requires caps.askPerMin == Some(60.0) && K.Readable(caps, v) && K.Readable(caps, w)
    ensures var (first, buckets) := K.Ask(caps, map[], v, now);
            first == None && K.Ask(caps, buckets, w, now).0 == Some(K.RateLimited)
  {
  }

  /** A scan that asks for no atoms gets one. */
  lemma ZeroLimitYieldsOne()
    ensures Scan(Plainly(), StoreOf("w", [Sample("w", "1", "")]), "w", NO_FILTER.(limit := Some(0)))
         == Ok([Sample("w", "1", "")])
  {
    hide Log, Plain, LogInv, IndexInv, GloballyUnique, NoOrphans, StoreOf, Plainly, Scan;
    SlashFreeIsPlain("w");
    var a := Sample("w", "1", "");
    Appended("w", [a]);
    ScansLog(Plainly(), StoreOf("w", [a]), "w", NO_FILTER.(limit := Some(0)));
    KeepAll((x: Atom) => MatchesFilter(x, NO_FILTER.(limit := Some(0))), [a]);
  }

  /** An atom with the flag asked for: the storage test passes it, the reflex test does not. */
  lemma FlagsDisagree(cfg: R.Config, a: Atom)
    requires a.flags == ["x"]
    ensures MatchesFilter(a, NO_FILTER.(flags := ["x"]))
    ensures !R.Passes(cfg, R.ReflexFilter(None, [], [], None, None, None, ["x"]), None, a)
  {
    assert ["x"][0] == "x" && a.flags[0] == "x";
  }
}
