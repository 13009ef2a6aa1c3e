/**
 Deletion, whole and cut short. A completed deletion filters its world's log. A deletion that a
 crash cuts short removes bodies before frames, so that the repair on reopening can take atoms that
 nobody deleted: the lemmas say exactly which.
 */
module SledDelete {
  import opened Prelude
  import opened OrderedMap
  import opened Atoms
  import opened SledKeys
  import opened SledStore
  import opened SledStorage
  import opened SledLogs
  import opened SledCrash
  import opened SledRepair

  predicate Survives(a: Atom, ids: seq<AtomId>) { a.id !in ids }

  /** `keys` without the first `m` of those that `named` selects. */
  function DropFirst<T>(named: T -> bool, keys: seq<T>, m: nat): seq<T> {
    if keys == [] || m == 0 then keys
    else if named(keys[0]) then DropFirst(named, keys[1..], m - 1)
    else [keys[0]] + DropFirst(named, keys[1..], m)
  }

  /** The part of a log before its first atom with a dead body. */
  function UpToDead(log: seq<Atom>, dead: seq<AtomId>): (r: seq<Atom>)
    ensures r <= log
    ensures forall a :: a in r ==> Survives(a, dead)
    ensures |r| < |log| ==> !Survives(log[|r|], dead)
  {
    if log == [] || !Survives(log[0], dead) then [] else [log[0]] + UpToDead(log[1..], dead)
  }

  /** The ids whose bodies are gone after `n` removals. */
  function Dead(ids: seq<AtomId>, n: nat): seq<AtomId> {
    if n < 2 * |ids| then ids[..(n + 1) / 2] else ids
  }

  function FramesGone(ids: seq<AtomId>, n: nat): nat {
    if n < 2 * |ids| then 0 else n - 2 * |ids|
  }

  // ---------------------------------------------------------------- keys

  lemma {:induction false} KeepNotFirst(named: string -> bool, keys: seq<string>, m: nat)
    requires Distinct(keys) && m <= |Keep(named, keys)|
    ensures Keep((k: string) => k !in Keep(named, keys)[..m], keys) == DropFirst(named, keys, m)
  {
    hide Keep, DropFirst, Distinct;
    var gone := Keep(named, keys)[..m];
    var f := (k: string) => k !in gone;
    if m == 0 {
      KeepAll(f, keys);
      DropNone(named, keys);
    } else {
      NotEmptied(named, keys);
      var k0 := keys[0];
      var rest := keys[1..];
      assert keys == [k0] + rest;
      DistinctTail(keys);
      FirstGone(named, k0, rest, m);
      DropFirstCons(named, k0, rest, m);
      var m' := if named(k0) then m - 1 else m;
      var gone' := Keep(named, rest)[..m'];
      KeepCons(f, k0, rest);
      KeepCongruent(f, (k: string) => k !in gone', rest);
      KeepNotFirst(named, rest, m');
    }
  }

  lemma DropNone(named: string -> bool, keys: seq<string>)
    ensures DropFirst(named, keys, 0) == keys
  {
  }

  lemma DropFirstCons(named: string -> bool, k0: string, rest: seq<string>, m: nat)
    requires m > 0
    ensures DropFirst(named, [k0] + rest, m)
         == if named(k0) then DropFirst(named, rest, m - 1) else [k0] + DropFirst(named, rest, m)
  {
    assert ([k0] + rest)[0] == k0 && ([k0] + rest)[1..] == rest;
  }

  /** The first key is among those gone when it is named; the others gone are gone from the rest. */
  lemma FirstGone(named: string -> bool, k0: string, rest: seq<string>, m: nat)
    requires 0 < m <= |Keep(named, [k0] + rest)| && k0 !in rest
    ensures var m' := if named(k0) then m - 1 else m;
            && m' <= |Keep(named, rest)|
            && (forall k :: k in rest ==> (k in Keep(named, [k0] + rest)[..m] <==> k in Keep(named, rest)[..m']))
            && (k0 in Keep(named, [k0] + rest)[..m] <==> named(k0))
  {
    hide Keep;
    KeepCons(named, k0, rest);
    var kept := Keep(named, rest);
    if named(k0) {
      assert ([k0] + kept)[..m] == [k0] + kept[..m - 1];
    } else {
      assert forall k :: k in kept[..m] ==> k in kept;
    }
  }

  lemma NotEmptied(named: string -> bool, keys: seq<string>)
    ensures Keep(named, keys) != [] ==> keys != []
  {
  }

  lemma DistinctTail(keys: seq<string>)
    requires Distinct(keys) && keys != []
    ensures Distinct(keys[1..]) && keys[0] !in keys[1..]
  {
    assert forall i :: 0 <= i < |keys[1..]| ==> keys[1..][i] == keys[i + 1];
  }

  /** Which key is named by the deletion, seen from the log. */
  lemma {:induction false} DropFirstLog(
    c: Codec, db: Db, w: WorldKey, ids: seq<AtomId>, named: string -> bool, keys: seq<string>, m: nat)
    requires forall k :: k in keys ==> AtomAt(c, db, w, k).Some?
    requires forall k :: k in keys ==> named(k) == !Survives(AtomAt(c, db, w, k).value, ids)
    ensures LogOf(c, db, w, DropFirst(named, keys, m))
         == DropFirst((a: Atom) => !Survives(a, ids), LogOf(c, db, w, keys), m)
  {
    hide AtomAt, Survives;
    var g := (a: Atom) => !Survives(a, ids);
    if keys != [] && m != 0 {
      var a := AtomAt(c, db, w, keys[0]).value;
      var rest := keys[1..];
      assert LogOf(c, db, w, keys) == [a] + LogOf(c, db, w, rest);
      assert ([a] + LogOf(c, db, w, rest))[1..] == LogOf(c, db, w, rest);
      if named(keys[0]) {
        DropFirstLog(c, db, w, ids, named, rest, m - 1);
      } else {
        DropFirstLog(c, db, w, ids, named, rest, m);
        assert LogOf(c, db, w, [keys[0]] + DropFirst(named, rest, m))
            == [a] + LogOf(c, db, w, DropFirst(named, rest, m)) by {
          LogOfConcat(c, db, w, [keys[0]], DropFirst(named, rest, m));
        }
      }
    }
  }

  lemma {:induction false} KeepLog(
    c: Codec, db: Db, w: WorldKey, alive: string -> bool, g: Atom -> bool, keys: seq<string>)
    requires forall k :: k in keys ==> AtomAt(c, db, w, k).Some?
    requires forall k :: k in keys ==> alive(k) == g(AtomAt(c, db, w, k).value)
    ensures LogOf(c, db, w, Keep(alive, keys)) == Keep(g, LogOf(c, db, w, keys))
  {
    hide AtomAt, Keep;
    if keys == [] {
      KeepNone(alive, keys);
      KeepNone(g, []);
    } else {
      var a := AtomAt(c, db, w, keys[0]).value;
      var rest := keys[1..];
      assert keys == [keys[0]] + rest && LogOf(c, db, w, keys) == [a] + LogOf(c, db, w, rest);
      KeepLog(c, db, w, alive, g, rest);
      KeepCons(alive, keys[0], rest);
      KeepCons(g, a, LogOf(c, db, w, rest));
      if alive(keys[0]) { LogOfConcat(c, db, w, [keys[0]], Keep(alive, rest)); }
    }
  }

  lemma {:induction false} PrefixLog(
    c: Codec, db: Db, db1: Db, w: WorldKey, dead: seq<AtomId>, keys: seq<string>)
    requires forall k :: k in keys ==> AtomAt(c, db, w, k).Some?
    requires forall k :: k in keys ==> GoodKey(c, db1, w, k) == Survives(AtomAt(c, db, w, k).value, dead)
    ensures LogOf(c, db, w, GoodPrefix(c, db1, w, keys)) == UpToDead(LogOf(c, db, w, keys), dead)
  {
    hide AtomAt, Survives, GoodKey;
    if keys != [] {
      var a := AtomAt(c, db, w, keys[0]).value;
      var rest := keys[1..];
      assert LogOf(c, db, w, keys) == [a] + LogOf(c, db, w, rest);
      assert ([a] + LogOf(c, db, w, rest))[1..] == LogOf(c, db, w, rest);
      if GoodKey(c, db1, w, keys[0]) {
        PrefixLog(c, db, db1, w, dead, rest);
        LogOfConcat(c, db, w, [keys[0]], GoodPrefix(c, db1, w, rest));
      }
    }
  }

  // ---------------------------------------------------------------- which keys a deletion touches

  lemma {:induction false} BodyRemovalsAt(w: WorldKey, ids: seq<AtomId>, i: nat)
    requires i < |ids|
    ensures BodyRemovals(w, ids)[2 * i] == AtomKey(w, ids[i])
    ensures BodyRemovals(w, ids)[2 * i + 1] == IndexKey(ids[i])
  {
    if i > 0 { BodyRemovalsAt(w, ids[1..], i - 1); }
  }

  lemma BodyRemovalsPick(w: WorldKey, ids: seq<AtomId>, j: nat)
    requires j < 2 * |ids|
    ensures BodyRemovals(w, ids)[j] == if j % 2 == 0 then AtomKey(w, ids[j / 2]) else IndexKey(ids[j / 2])
  {
    hide AtomKey, IndexKey, BodyRemovals;
    BodyRemovalsAt(w, ids, j / 2);
  }

  /** Among the first `n` body removals, the bodies are those of the dead ids. */
  lemma BodiesGone(w: WorldKey, ids: seq<AtomId>, n: nat, id: AtomId)
    requires Plain(w) && n <= 2 * |ids|
    ensures AtomKey(w, id) in BodyRemovals(w, ids)[..n] <==> id in Dead(ids, n)
  {
    hide AtomKey, IndexKey, BodyRemovals, Plain;
    var all := BodyRemovals(w, ids);
    if id in Dead(ids, n) {
      var i :| 0 <= i < |Dead(ids, n)| && Dead(ids, n)[i] == id;
      BodyRemovalsAt(w, ids, i);
      assert all[..n][2 * i] == AtomKey(w, id);
    }
    if AtomKey(w, id) in all[..n] {
      var j :| 0 <= j < n && all[..n][j] == AtomKey(w, id);
      BodyRemovalsPick(w, ids, j);
      BodyGoneIsDead(w, ids, n, id, j / 2, j % 2);
    }
  }

  lemma BodyGoneIsDead(w: WorldKey, ids: seq<AtomId>, n: nat, id: AtomId, i: nat, odd: nat)
    requires Plain(w) && odd <= 1 && 2 * i + odd < n <= 2 * |ids|
    requires AtomKey(w, id) == if odd == 0 then AtomKey(w, ids[i]) else IndexKey(ids[i])
    ensures id in Dead(ids, n)
  {
    hide AtomKey, IndexKey, Plain, Dead;
    KeysDistinct(w, id, w, 0, ids[i]);
    AtomKeyInjective(w, id, w, ids[i]);
    DeadAt(ids, n, i);
  }

  lemma DeadAt(ids: seq<AtomId>, n: nat, i: nat)
    requires 2 * i < n <= 2 * |ids|
    ensures ids[i] in Dead(ids, n)
  {
    assert Dead(ids, n)[i] == ids[i];
  }

  lemma BodyRemovalShape(w: WorldKey, ids: seq<AtomId>, n: nat)
    requires n <= 2 * |ids|
    ensures forall k :: k in BodyRemovals(w, ids)[..n] ==>
              exists i :: 0 <= i < |ids| && (k == AtomKey(w, ids[i]) || k == IndexKey(ids[i]))
  {
    hide AtomKey, IndexKey;
    var all := BodyRemovals(w, ids);
    assert forall k :: k in all[..n] ==> k in all;
  }

  /** The removals of a deletion that has got as far as step `n`. */
  function Gone(c: Codec, db: Db, w: WorldKey, ids: seq<AtomId>, n: nat): set<string>
    requires n <= |Removals(c, db, w, ids)|
  {
    set k | k in Removals(c, db, w, ids)[..n]
  }

  /** Log keys of `w` are untouched by body removals, so the frames named are those of the start. */
  lemma FramesNamed(c: Codec, db: Db, w: WorldKey, ids: seq<AtomId>)
    requires Plain(w)
    ensures Removals(c, db, w, ids) == BodyRemovals(w, ids) + FrameRemovals(c, db, w, ids)
  {
    hide LogPrefix, AtomKey, IndexKey, Sorted;
    var bodies := BodyRemovals(w, ids);
    var mid := Without(db, bodies);
    forall k | Below(LogPrefix(w), k)
      ensures k !in bodies
    {
      if k in bodies {
        var i :| 0 <= i < |ids| && (k == AtomKey(w, ids[i]) || k == IndexKey(ids[i]));
        AtomKeyNotUnderLog(w, ids[i], w);
        IndexKeyApart(ids[i], w);
      }
    }
    ScanSame(db, mid, LogPrefix(w));
    KeepCongruent((k: string) => FrameNames(c, mid, ids, k), (k: string) => FrameNames(c, db, ids, k),
                  ScanPrefix(db, LogPrefix(w)));
  }

  lemma InPrefixes(x: seq<string>, y: seq<string>, n: nat, k: string)
    requires n <= |x + y|
    ensures k in (x + y)[..n] <==>
            k in x[..if n < |x| then n else |x|] || k in y[..if n < |x| then 0 else n - |x|]
  {
    if n < |x| {
      assert (x + y)[..n] == x[..n];
    } else {
      assert (x + y)[..n] == x + y[..n - |x|] && x[..|x|] == x;
    }
  }

  /** Key by key: what is gone after `n` steps of the deletion. */
  lemma GoneKeys(c: Codec, db: Db, w: WorldKey, ids: seq<AtomId>, n: nat)
    requires Plain(w) && n <= |Removals(c, db, w, ids)|
    ensures FramesGone(ids, n) <= |FrameRemovals(c, db, w, ids)|
    ensures forall id :: AtomKey(w, id) in Gone(c, db, w, ids, n) <==> id in Dead(ids, n)
    ensures forall k :: Below(LogPrefix(w), k) ==>
              (k in Gone(c, db, w, ids, n) <==> k in FrameRemovals(c, db, w, ids)[..FramesGone(ids, n)])
    ensures forall k :: k in Gone(c, db, w, ids, n) ==>
              Below(LogPrefix(w), k) || exists id :: k == AtomKey(w, id) || k == IndexKey(id)
  {
    hide LogPrefix, AtomKey, IndexKey, Below, FrameRemovals, Dead;
    FramesNamed(c, db, w, ids);
    var bodies := BodyRemovals(w, ids);
    var frames := FrameRemovals(c, db, w, ids);
    var nb := if n < |bodies| then n else |bodies|;
    FramesBelow(c, db, w, ids);
    forall k
      ensures k in Gone(c, db, w, ids, n) <==> k in bodies[..nb] || k in frames[..FramesGone(ids, n)]
    {
      InPrefixes(bodies, frames, n, k);
    }
    forall id
      ensures AtomKey(w, id) in Gone(c, db, w, ids, n) <==> id in Dead(ids, n)
    {
      BodiesGone(w, ids, nb, id);
      DeadCapped(ids, n);
      AtomKeyNotUnderLog(w, id, w);
    }
    forall k | Below(LogPrefix(w), k)
      ensures k !in bodies[..nb]
    {
      if k in bodies[..nb] {
        BodyRemovalShape(w, ids, nb);
        var i :| 0 <= i < |ids| && (k == AtomKey(w, ids[i]) || k == IndexKey(ids[i]));
        AtomKeyNotUnderLog(w, ids[i], w);
        IndexKeyApart(ids[i], w);
      }
    }
    forall k | k in bodies[..nb]
      ensures exists id :: k == AtomKey(w, id) || k == IndexKey(id)
    {
      BodyRemovalShape(w, ids, nb);
    }
  }

  lemma DeadCapped(ids: seq<AtomId>, n: nat)
    ensures Dead(ids, if n < 2 * |ids| then n else 2 * |ids|) == Dead(ids, n)
  {
  }

  lemma FramesBelow(c: Codec, db: Db, w: WorldKey, ids: seq<AtomId>)
    ensures forall k :: k in FrameRemovals(c, db, w, ids) ==> Below(LogPrefix(w), k)
  {
  }

  // ---------------------------------------------------------------- what a reader sees

  /** The log after `n` steps of a deletion and before any repair, key by key. */
  lemma DeleteSteps(c: Codec, db: Db, w: WorldKey, ids: seq<AtomId>, n: nat)
    requires LogInv(c, db) && Plain(w) && n <= |Removals(c, db, w, ids)|
    ensures var db1 := db - Gone(c, db, w, ids, n);
            var named := (k: string) => FrameNames(c, db, ids, k);
            var keys1 := ScanPrefix(db1, LogPrefix(w));
            && keys1 == DropFirst(named, ScanPrefix(db, LogPrefix(w)), FramesGone(ids, n))
            && LogOf(c, db, w, keys1)
               == DropFirst((a: Atom) => !Survives(a, ids), Log(c, db, w), FramesGone(ids, n))
            && (forall k :: k in keys1 ==>
                  k in ScanPrefix(db, LogPrefix(w)) && AtomAt(c, db, w, k).Some?
                  && (GoodKey(c, db1, w, k) <==> Survives(AtomAt(c, db, w, k).value, Dead(ids, n)))
                  && (GoodKey(c, db1, w, k) ==> AtomAt(c, db1, w, k) == AtomAt(c, db, w, k)))
  {
    hide LogPrefix, AtomKey, IndexKey, Below, Sorted, Dead, FramesGone, Gone, Removals, DropFirst, LogOf, Canonical;
    GoneKeys(c, db, w, ids, n);
    var gone := Gone(c, db, w, ids, n);
    var m := FramesGone(ids, n);
    var keys := ScanPrefix(db, LogPrefix(w));
    var named := (k: string) => FrameNames(c, db, ids, k);
    ScanRemove(db, gone, LogPrefix(w));
    AscendingDistinct(keys);
    KeepCongruent((k: string) => k !in gone, (k: string) => k !in Keep(named, keys)[..m], keys);
    KeepNotFirst(named, keys, m);
    assert WorldInv(c, db, w);
    DropFirstLog(c, db, w, ids, named, keys, m);
  }

  lemma OtherWorlds(c: Codec, db: Db, w: WorldKey, ids: seq<AtomId>, n: nat, v: WorldKey)
    requires LogInv(c, db) && Plain(w) && Plain(v) && v != w && n <= |Removals(c, db, w, ids)|
    ensures var db1 := db - Gone(c, db, w, ids, n);
            && WorldInv(c, db1, v) && Log(c, db1, v) == Log(c, db, v)
            && ScanPrefix(db1, LogPrefix(v)) == ScanPrefix(db, LogPrefix(v))
  {
    hide LogPrefix, AtomKey, IndexKey, Below, WorldInv, Log, NextSeq, Gone, Removals;
    GoneKeys(c, db, w, ids, n);
    var gone := Gone(c, db, w, ids, n);
    forall k | k in gone
      ensures !Below(LogPrefix(v), k) && forall id :: k != AtomKey(v, id)
    {
      if Below(LogPrefix(w), k) {
        if Below(LogPrefix(v), k) { LogsApart(v, w, k); }
        forall id ensures k != AtomKey(v, id) { AtomKeyNotUnderLog(v, id, w); }
      } else {
        var id' :| k == AtomKey(w, id') || k == IndexKey(id');
        AtomKeyNotUnderLog(w, id', v);
        IndexKeyApart(id', v);
        forall id ensures k != AtomKey(v, id) {
          KeysDistinct(v, id, v, 0, id');
          if k == AtomKey(v, id) { AtomKeyInjective(v, id, w, id'); }
        }
      }
    }
    BodiesPresent(c, db, v);
    WorldUnchanged(c, db, db - gone, v);
  }

  lemma {:induction false} DropAll<T(!new)>(named: T -> bool, alive: T -> bool, s: seq<T>, m: nat)
    requires m >= |Keep(named, s)| && forall x :: x in s ==> alive(x) == !named(x)
    ensures DropFirst(named, s, m) == Keep(alive, s)
  {
    if s != [] {
      if m == 0 {
        KeepAll(alive, s);
      } else {
        DropAll(named, alive, s[1..], if named(s[0]) then m - 1 else m);
      }
    }
  }

  /** A completed deletion filters the log of its world, keeps order, and touches no other world. */
  lemma WholeDelete(c: Codec, db: Db, w: WorldKey, ids: seq<AtomId>)
    requires LogInv(c, db) && Plain(w)
    ensures LogInv(c, Delete(c, db, w, ids))
    ensures Log(c, Delete(c, db, w, ids), w) == Keep((a: Atom) => Survives(a, ids), Log(c, db, w))
    ensures forall v :: Plain(v) && v != w ==> Log(c, Delete(c, db, w, ids), v) == Log(c, db, v)
  {
    hide LogPrefix, AtomKey, IndexKey, Log, WorldInv, Plain, FrameRemovals, BodyRemovals;
    var all := Removals(c, db, w, ids);
    var n := |all|;
    assert all[..n] == all;
    assert Delete(c, db, w, ids) == db - Gone(c, db, w, ids, n);
    WholeDeleteHere(c, db, w, ids);
    forall v | Plain(v) && v != w
      ensures WorldInv(c, Delete(c, db, w, ids), v) && Log(c, Delete(c, db, w, ids), v) == Log(c, db, v)
    {
      OtherWorlds(c, db, w, ids, n, v);
    }
  }

  /** A completed deletion has removed every body and every frame that it names. */
  lemma DeleteKeys(c: Codec, db: Db, w: WorldKey, ids: seq<AtomId>)
    requires LogInv(c, db) && Plain(w)
    ensures var keys1 := ScanPrefix(Delete(c, db, w, ids), LogPrefix(w));
            && keys1 == Keep((k: string) => !FrameNames(c, db, ids, k), ScanPrefix(db, LogPrefix(w)))
            && forall k :: k in keys1 ==>
                 k in ScanPrefix(db, LogPrefix(w)) && AtomAt(c, db, w, k).Some?
                 && (GoodKey(c, Delete(c, db, w, ids), w, k) <==> Survives(AtomAt(c, db, w, k).value, ids))
                 && (GoodKey(c, Delete(c, db, w, ids), w, k) ==>
                       AtomAt(c, Delete(c, db, w, ids), w, k) == AtomAt(c, db, w, k))
  {
    hide LogPrefix, AtomKey, IndexKey, LogOf, LogInv, GoodKey, AtomAt, FrameNames, Survives, BodyRemovals,
         Sorted, DropFirst, Dead, FramesGone, Keep;
    var all := Removals(c, db, w, ids);
    var n := |all|;
    assert all[..n] == all;
    assert Delete(c, db, w, ids) == db - Gone(c, db, w, ids, n);
    FramesNamed(c, db, w, ids);
    DeleteSteps(c, db, w, ids, n);
    CompletedCounts(ids, |FrameRemovals(c, db, w, ids)|);
    DropAll((k: string) => FrameNames(c, db, ids, k), (k: string) => !FrameNames(c, db, ids, k),
            ScanPrefix(db, LogPrefix(w)), FramesGone(ids, n));
  }

  lemma CompletedCounts(ids: seq<AtomId>, frames: nat)
    ensures Dead(ids, 2 * |ids| + frames) == ids && FramesGone(ids, 2 * |ids| + frames) == frames
  {
  }

  lemma WholeDeleteHere(c: Codec, db: Db, w: WorldKey, ids: seq<AtomId>)
    requires LogInv(c, db) && Plain(w)
    ensures WorldInv(c, Delete(c, db, w, ids), w)
    ensures Log(c, Delete(c, db, w, ids), w) == Keep((a: Atom) => Survives(a, ids), Log(c, db, w))
  {
    hide LogPrefix, ScanPrefix, LogOf, Delete, Keep, GoodKey, AtomAt, Survives, FrameNames, WorldInv, LogInv;
    var db1 := Delete(c, db, w, ids);
    var keys := ScanPrefix(db, LogPrefix(w));
    var keys1 := ScanPrefix(db1, LogPrefix(w));
    var alive := (k: string) => !FrameNames(c, db, ids, k);
    DeleteKeys(c, db, w, ids);
    NamedAtoms(c, db, w, ids);
    KeepLog(c, db, w, alive, (a: Atom) => Survives(a, ids), keys);
    forall k | k in keys1
      ensures k in db && k in db1 && db1[k] == db[k] && GoodKey(c, db1, w, k)
      ensures AtomAt(c, db1, w, k) == AtomAt(c, db, w, k)
    {
      assert k in keys && alive(k);
      DeleteSubmap(c, db, w, ids, k);
    }
    InvHere(c, db, w);
    SubLogSound(c, db, db1, w);
    LogOfSame(c, db, db1, w, keys1);
  }

  /** In a sound log a frame is named by a deletion exactly when its atom is. */
  lemma NamedAtoms(c: Codec, db: Db, w: WorldKey, ids: seq<AtomId>)
    requires LogInv(c, db) && Plain(w)
    ensures forall k :: k in ScanPrefix(db, LogPrefix(w)) ==>
              k in db && AtomAt(c, db, w, k).Some?
              && (FrameNames(c, db, ids, k) <==> !Survives(AtomAt(c, db, w, k).value, ids))
  {
    hide LogPrefix, AtomKey, Canonical, Plain, Sorted;
    assert WorldInv(c, db, w);
  }

  lemma DeleteSubmap(c: Codec, db: Db, w: WorldKey, ids: seq<AtomId>, k: string)
    requires k in Delete(c, db, w, ids)
    ensures k in db && db[k] == Delete(c, db, w, ids)[k]
  {
  }

  /** The count a deletion returns is the number of atoms it takes out of the log. */
  lemma DeleteCount(c: Codec, db: Db, w: WorldKey, ids: seq<AtomId>)
    requires LogInv(c, db) && Plain(w)
    ensures |FrameRemovals(c, Without(db, BodyRemovals(w, ids)), w, ids)|
         == |Keep((a: Atom) => !Survives(a, ids), Log(c, db, w))|
  {
    hide LogPrefix, AtomKey, IndexKey, Sorted, Keep, Canonical;
    var keys := ScanPrefix(db, LogPrefix(w));
    var named := (k: string) => FrameNames(c, db, ids, k);
    FramesNamed(c, db, w, ids);
    assert Removals(c, db, w, ids)[2 * |ids|..] == FrameRemovals(c, db, w, ids);
    assert WorldInv(c, db, w);
    KeepLog(c, db, w, named, (a: Atom) => !Survives(a, ids), keys);
    LogOfAt(c, db, w, Keep(named, keys));
  }

  /** Good frames among sound ones, unmoved and leading to the same atoms, make a sound world. */
  lemma SubLogSound(c: Codec, db: Db, db': Db, w: WorldKey)
    requires WorldInv(c, db, w)
    requires forall k :: k in ScanPrefix(db', LogPrefix(w)) ==>
               k in ScanPrefix(db, LogPrefix(w)) && k in db && GoodKey(c, db', w, k) && db'[k] == db[k]
               && AtomAt(c, db', w, k) == AtomAt(c, db, w, k)
    ensures WorldInv(c, db', w)
  {
    hide LogPrefix, AtomKey, Canonical, AtomAt;
    forall k | k in ScanPrefix(db', LogPrefix(w))
      ensures Sound(c, db', w, k) && Canonical(w, k) && ListedId(c, db', k) == ListedId(c, db, k)
    {
      assert Sound(c, db, w, k);
    }
  }

  /**
   A deletion cut short after `n` of its removals, then reopened: the log has lost the frames
   already removed, and everything from its first frame whose body was already gone.
   */
  lemma CrashedDelete(c: Codec, db: Db, w: WorldKey, ids: seq<AtomId>, n: nat, db': Db)
    requires LogInv(c, db) && '/' !in w && n <= |Removals(c, db, w, ids)|
    requires Reopened(c, Without(db, Removals(c, db, w, ids)[..n]), db')
    ensures LogInv(c, db')
    ensures Log(c, db', w)
         == UpToDead(DropFirst((a: Atom) => !Survives(a, ids), Log(c, db, w), FramesGone(ids, n)), Dead(ids, n))
    ensures forall v :: Plain(v) && v != w ==> Log(c, db', v) == Log(c, db, v)
  {
    hide LogPrefix, AtomKey, IndexKey, LogKey, Sorted, SeqOf, Log, Below, Removals, UpToDead, DropFirst,
         Dead, FramesGone, GoodPrefix, Rebuilt, Plain, Repair, Survives, WorldInv;
    SlashFreeIsPlain(w);
    var db1 := db - Gone(c, db, w, ids, n);
    assert db1 == Without(db, Removals(c, db, w, ids)[..n]);
    CrashedDeleteHere(c, db, w, ids, n, db');
    forall v | Plain(v) && v != w
      ensures WorldInv(c, db', v) && Log(c, db', v) == Log(c, db, v)
    {
      OtherWorlds(c, db, w, ids, n, v);
      ReopenedOther(c, db1, db', v);
    }
  }

  lemma CrashedDeleteHere(c: Codec, db: Db, w: WorldKey, ids: seq<AtomId>, n: nat, db': Db)
    requires LogInv(c, db) && '/' !in w && Plain(w) && n <= |Removals(c, db, w, ids)|
    requires Reopened(c, db - Gone(c, db, w, ids, n), db')
    ensures WorldInv(c, db', w)
    ensures Log(c, db', w)
         == UpToDead(DropFirst((a: Atom) => !Survives(a, ids), Log(c, db, w), FramesGone(ids, n)), Dead(ids, n))
  {
    hide LogPrefix, AtomKey, IndexKey, LogKey, Sorted, SeqOf, LogOf, Below, Removals, UpToDead, DropFirst,
         Dead, FramesGone, GoodPrefix, Rebuilt, Plain, Repair, Survives;
    var db1 := db - Gone(c, db, w, ids, n);
    DeleteSteps(c, db, w, ids, n);
    var keys1 := ScanPrefix(db1, LogPrefix(w));
    assert WorldInv(c, db, w);
    assert CanonicalLog(db1, w);
    PrefixLog(c, db, db1, w, Dead(ids, n), keys1);
    var good := GoodPrefix(c, db1, w, keys1);
    ReopenedLog(c, db1, db', w);
    forall k | k in good
      ensures k in keys1 && AtomAt(c, db1, w, k) == AtomAt(c, db, w, k) && db1[k] == db[k]
    {
      GoodPrefixSound(c, db1, w, keys1, k);
    }
    LogOfSame(c, db, db1, w, good);
    SubLogSound(c, db, db', w);
  }

  lemma GoodPrefixSound(c: Codec, db: Db, w: WorldKey, keys: seq<string>, k: string)
    requires k in GoodPrefix(c, db, w, keys)
    ensures k in keys && GoodKey(c, db, w, k)
  {
  }

  /** Reopening a damaged store shows, in a slash-free world, the atoms of its longest good prefix. */
  lemma ReopenedLog(c: Codec, db1: Db, db': Db, w: WorldKey)
    requires '/' !in w && CanonicalLog(db1, w) && Reopened(c, db1, db')
    ensures var good := GoodPrefix(c, db1, w, ScanPrefix(db1, LogPrefix(w)));
            && ScanPrefix(db', LogPrefix(w)) == good
            && (forall k :: k in good ==> GoodKey(c, db', w, k) && AtomAt(c, db', w, k) == AtomAt(c, db1, w, k)
                                          && k in db1 && db'[k] == db1[k])
            && Log(c, db', w) == LogOf(c, db1, w, good)
  {
    hide LogPrefix, AtomKey, LogKey, Sorted, SeqOf, LogOf, Below, Doomed, GoodPrefix, CanonicalLog;
    SlashFreeIsPlain(w);
    var good := GoodPrefix(c, db1, w, ScanPrefix(db1, LogPrefix(w)));
    RepairAllPrefix(c, db1, w);
    RepairTouchesOwnLogs(c, db1, w);
    LogsOutsideIndex(Repair(c, db1), db', w);
    assert ScanPrefix(db', LogPrefix(w)) == good;
    forall k | k in good
      ensures AtomAt(c, db', w, k) == AtomAt(c, db1, w, k) && GoodKey(c, db', w, k)
      ensures k in db1 && db'[k] == db1[k]
    {
      assert k in ScanPrefix(Repair(c, db1), LogPrefix(w)) && Below(LogPrefix(w), k);
      LogKeyNotIndex(w, k);
      forall id ensures !Below(INDEX, AtomKey(w, id)) { AtomKeyNotIndex(w, id); }
    }
    LogOfSame(c, db1, db', w, good);
  }

  /** Reopening shows an undamaged world unchanged, whatever happened to the others. */
  lemma ReopenedOther(c: Codec, db1: Db, db': Db, v: WorldKey)
    requires Plain(v) && WorldInv(c, db1, v) && Reopened(c, db1, db')
    ensures WorldInv(c, db', v) && Log(c, db', v) == Log(c, db1, v)
  {
    hide LogPrefix, AtomKey, Log, NextSeq, WorldInv, Plain, Below, ScanPrefix, IndexFrom, Repair;
    OtherUnrepaired(c, db1, v);
    BodiesPresent(c, db1, v);
    forall k | Below(LogPrefix(v), k) ensures !Below(INDEX, k) { LogKeyNotIndex(v, k); }
    forall id ensures !Below(INDEX, AtomKey(v, id)) { AtomKeyNotIndex(v, id); }
    WorldUnchanged(c, db1, db', v);
  }

  /** Repair of all worlds leaves a sound one as it is. */
  lemma OtherUnrepaired(c: Codec, db: Db, v: WorldKey)
    requires Plain(v) && WorldInv(c, db, v)
    ensures forall k :: Below(LogPrefix(v), k) ==>
              (k in Repair(c, db) <==> k in db) && (k in db ==> Repair(c, db)[k] == db[k])
    ensures forall id :: AtomKey(v, id) in db ==>
              AtomKey(v, id) in Repair(c, db) && Repair(c, db)[AtomKey(v, id)] == db[AtomKey(v, id)]
  {
    hide LogPrefix, AtomKey, Canonical, Plain, Below, ScanPrefix, AtomAt, FirstBad, Repair, Worlds;
    RepairTouchesOwnLogs(c, db, v);
    RepairSubmap(c, db);
    NoBadFrame(c, db, v, ScanPrefix(db, LogPrefix(v)));
  }

  /**
   Which atoms an early crash costs: while only bodies are gone, the atom at position `j` is still
   in the reopened log exactly when no atom up to and including `j` has lost its body.
   */
  lemma EarlyCrashKeeps(log: seq<Atom>, dead: seq<AtomId>, j: nat)
    requires j < |log|
    ensures j < |UpToDead(log, dead)| <==> forall i :: 0 <= i <= j ==> Survives(log[i], dead)
    ensures j < |UpToDead(log, dead)| ==> UpToDead(log, dead)[j] == log[j]
  {
    var r := UpToDead(log, dead);
    assert forall i :: 0 <= i < |r| ==> r[i] == log[i] && r[i] in r;
  }

  /** The atoms among `log` that a deletion of `ids` names. */
  function NamedIn(log: seq<Atom>, ids: seq<AtomId>): seq<Atom> {
    Keep((a: Atom) => !Survives(a, ids), log)
  }

  lemma NamedInCons(a: Atom, log: seq<Atom>, ids: seq<AtomId>)
    ensures |NamedIn([a] + log, ids)| == |NamedIn(log, ids)| + (if Survives(a, ids) then 0 else 1)
  {
    KeepCons((x: Atom) => !Survives(x, ids), a, log);
  }

  /** What a late crash leaves, one atom at a time. */
  lemma LateStep(a: Atom, rest: seq<Atom>, ids: seq<AtomId>, m: nat)
    ensures var named := (x: Atom) => !Survives(x, ids);
            UpToDead(DropFirst(named, [a] + rest, m), ids)
            == if Survives(a, ids) then [a] + UpToDead(DropFirst(named, rest, m), ids)
               else if m > 0 then UpToDead(DropFirst(named, rest, m - 1), ids) else []
  {
    assert ([a] + rest)[1..] == rest;
    var named := (x: Atom) => !Survives(x, ids);
    if Survives(a, ids) {
      assert DropFirst(named, [a] + rest, m) == [a] + DropFirst(named, rest, m);
      assert ([a] + DropFirst(named, rest, m))[1..] == DropFirst(named, rest, m);
    }
  }

  /**
   Which atoms a late crash costs: once all bodies are gone and `m` frames with them, the atom at
   position `j` is still in the reopened log exactly when it is not named and at most `m` named
   atoms come before it.
   */
  lemma {:induction false} LateCrashKeeps(log: seq<Atom>, ids: seq<AtomId>, m: nat, j: nat)
    requires UniqueIds(log) && j < |log|
    ensures log[j] in UpToDead(DropFirst((a: Atom) => !Survives(a, ids), log, m), ids) <==>
              Survives(log[j], ids) && |NamedIn(log[..j], ids)| <= m
  {
    hide UpToDead, DropFirst, NamedIn, Survives, UniqueIds;
    var a := log[0];
    var rest := log[1..];
    assert log == [a] + rest;
    UniqueTail(log);
    LateStep(a, rest, ids, m);
    if j == 0 {
      LateSubset(rest, ids, m);
      if m > 0 { LateSubset(rest, ids, m - 1); }
      NothingNamed(ids);
    } else {
      assert log[j] == rest[j - 1] && rest[j - 1] in rest && log[..j] == [a] + rest[..j - 1];
      NamedInCons(a, rest[..j - 1], ids);
      LateCrashKeeps(rest, ids, m, j - 1);
      if m > 0 { LateCrashKeeps(rest, ids, m - 1, j - 1); }
    }
  }

  lemma UniqueTail(log: seq<Atom>)
    requires UniqueIds(log) && log != []
    ensures UniqueIds(log[1..]) && log[0] !in log[1..]
  {
    assert forall i :: 0 <= i < |log[1..]| ==> log[1..][i] == log[i + 1] && log[i + 1].id != log[0].id;
  }

  lemma NothingNamed(ids: seq<AtomId>)
    ensures NamedIn([], ids) == []
  {
  }

  lemma LateSubset(log: seq<Atom>, ids: seq<AtomId>, m: nat)
    ensures forall x :: x in UpToDead(DropFirst((a: Atom) => !Survives(a, ids), log, m), ids) ==> x in log
  {
    DropFirstSubset((a: Atom) => !Survives(a, ids), log, m);
  }

  lemma {:induction false} DropFirstSubset(named: Atom -> bool, log: seq<Atom>, m: nat)
    ensures forall a :: a in DropFirst(named, log, m) ==> a in log
  {
    if log != [] && m != 0 { DropFirstSubset(named, log[1..], if named(log[0]) then m - 1 else m); }
  }

  /**
   The atom at `j`, which a deletion does not name, is safe from a crash after `n` removals: while
   bodies go, no atom before it has lost its body; after that, the frames of all named atoms before
   it are gone already. The log alone tells.
   */
  predicate Safe(log: seq<Atom>, ids: seq<AtomId>, n: nat, j: nat)
    requires j < |log|
  {
    if n < 2 * |ids| then forall i :: 0 <= i < j ==> Survives(log[i], Dead(ids, n))
    else |NamedIn(log[..j], ids)| <= FramesGone(ids, n)
  }

  /** Exactly which atoms survive a deletion cut short at any of its removals, and reopened. */
  lemma CrashedDeleteKeeps(
    c: Codec, db: Db, w: WorldKey, ids: seq<AtomId>, n: nat, db': Db, j: nat)
    requires LogInv(c, db) && '/' !in w && n <= |Removals(c, db, w, ids)|
    requires Reopened(c, Without(db, Removals(c, db, w, ids)[..n]), db')
    requires j < |Log(c, db, w)|
    ensures var log := Log(c, db, w);
            log[j] in Log(c, db', w) <==> Survives(log[j], Dead(ids, n)) && Safe(log, ids, n, j)
  {
    hide UpToDead, DropFirst, NamedIn, Survives, Log, LogInv, Removals, Reopened, Dead, FramesGone;
    var log := Log(c, db, w);
    SlashFreeIsPlain(w);
    UniqueLog(c, db, w);
    CrashedDelete(c, db, w, ids, n, db');
    if n < 2 * |ids| {
      NoFramesYet(log, ids, n);
      EarlyPosition(log, Dead(ids, n), j);
    } else {
      AllBodiesGone(ids, n);
      LateCrashKeeps(log, ids, FramesGone(ids, n), j);
    }
  }

  lemma UniqueLog(c: Codec, db: Db, w: WorldKey)
    requires LogInv(c, db) && Plain(w)
    ensures UniqueIds(Log(c, db, w))
  {
    assert WorldInv(c, db, w);
    LogIdsDistinct(c, db, w);
  }

  lemma NoFramesYet(log: seq<Atom>, ids: seq<AtomId>, n: nat)
    requires n < 2 * |ids|
    ensures DropFirst((a: Atom) => !Survives(a, ids), log, FramesGone(ids, n)) == log
  {
  }

  lemma AllBodiesGone(ids: seq<AtomId>, n: nat)
    requires n >= 2 * |ids|
    ensures Dead(ids, n) == ids
  {
  }

  lemma EarlyPosition(log: seq<Atom>, dead: seq<AtomId>, j: nat)
    requires UniqueIds(log) && j < |log|
    ensures log[j] in UpToDead(log, dead) <==> forall i :: 0 <= i <= j ==> Survives(log[i], dead)
  {
    hide UpToDead, Survives;
    EarlyCrashKeeps(log, dead, j);
    var r := UpToDead(log, dead);
    if log[j] in r {
      var k :| 0 <= k < |r| && r[k] == log[j];
      assert r[k] == log[k];
      assert k == j;
    }
  }

  /** So a torn deletion costs nothing that it does not name exactly when every other atom is safe. */
  lemma CrashedDeleteCostsNothing(c: Codec, db: Db, w: WorldKey, ids: seq<AtomId>, n: nat, db': Db)
    requires LogInv(c, db) && '/' !in w && n <= |Removals(c, db, w, ids)|
    requires Reopened(c, Without(db, Removals(c, db, w, ids)[..n]), db')
    ensures var log := Log(c, db, w);
            (forall a :: a in log && Survives(a, ids) ==> a in Log(c, db', w)) <==>
              forall j :: 0 <= j < |log| && Survives(log[j], ids) ==> Safe(log, ids, n, j)
  {
    hide UpToDead, DropFirst, NamedIn, Log, LogInv, Removals, Reopened, Dead, FramesGone, Safe;
    var log := Log(c, db, w);
    forall j | 0 <= j < |log| && Survives(log[j], ids)
      ensures log[j] in Log(c, db', w) <==> Safe(log, ids, n, j)
    {
      CrashedDeleteKeeps(c, db, w, ids, n, db', j);
      DeadAreNamed(ids, n);
    }
    forall a | a in log ensures exists j :: 0 <= j < |log| && log[j] == a {}
  }

  /** No atom that the deletion does not name comes after one that it names. */
  predicate NamedLast(log: seq<Atom>, ids: seq<AtomId>) {
    forall i, j :: 0 <= i < j < |log| && !Survives(log[i], ids) ==> !Survives(log[j], ids)
  }

  /** Whatever the crash point, atoms that no named one precedes are safe, and only those are always so. */
  lemma AlwaysSafe(log: seq<Atom>, ids: seq<AtomId>, steps: nat)
    requires steps >= 2 * |ids|
    ensures (forall n, j :: 0 <= n <= steps && 0 <= j < |log| && Survives(log[j], ids) ==> Safe(log, ids, n, j))
            <==> NamedLast(log, ids)
  {
    hide Survives, Dead;
    if NamedLast(log, ids) {
      forall n: nat, j: nat | n <= steps && j < |log| && Survives(log[j], ids)
        ensures Safe(log, ids, n, j)
      {
        NothingBefore(log, ids, n, j);
      }
    } else {
      var i, j :| 0 <= i < j < |log| && !Survives(log[i], ids) && Survives(log[j], ids);
      NamedNotEmpty(log[i], ids);
      LastBody(ids);
      assert !Safe(log, ids, 2 * |ids| - 1, j);
    }
  }

  lemma NamedNotEmpty(a: Atom, ids: seq<AtomId>)
    requires !Survives(a, ids)
    ensures |ids| > 0
  {
  }

  lemma LastBody(ids: seq<AtomId>)
    requires |ids| > 0
    ensures Dead(ids, 2 * |ids| - 1) == ids
  {
  }

  lemma NothingBefore(log: seq<Atom>, ids: seq<AtomId>, n: nat, j: nat)
    requires NamedLast(log, ids) && j < |log| && Survives(log[j], ids)
    ensures Safe(log, ids, n, j)
  {
    DeadAreNamed(ids, n);
    forall a | a in log[..j] ensures Survives(a, ids) {
      var i :| 0 <= i < j && log[..j][i] == a;
      assert log[i] == a;
    }
    KeepNone((a: Atom) => !Survives(a, ids), log[..j]);
  }

  /** `db'` is what a crash after `n` removals and a reopening may leave. */
  ghost predicate CrashOutcome(c: Codec, db: Db, w: WorldKey, ids: seq<AtomId>, n: nat, db': Db) {
    n <= |Removals(c, db, w, ids)| && Reopened(c, Without(db, Removals(c, db, w, ids)[..n]), db')
  }

  /**
   Which deletions cannot cost an atom that they do not name, wherever a crash cuts them: exactly those
   whose atoms are at the end of the log.
   */
  lemma CrashesNeverCost(c: Codec, db: Db, w: WorldKey, ids: seq<AtomId>)
    requires LogInv(c, db) && '/' !in w
    ensures (forall n: nat, db' :: CrashOutcome(c, db, w, ids, n, db') ==>
               forall a :: a in Log(c, db, w) && Survives(a, ids) ==> a in Log(c, db', w))
            <==> NamedLast(Log(c, db, w), ids)
  {
    hide Log, LogInv, CrashOutcome, Safe, Survives, NamedLast, Removals;
    var log := Log(c, db, w);
    var steps := |Removals(c, db, w, ids)|;
    EnoughSteps(c, db, w, ids);
    AlwaysSafe(log, ids, steps);
    if NamedLast(log, ids) {
      forall n: nat, db' | CrashOutcome(c, db, w, ids, n, db')
        ensures forall a :: a in log && Survives(a, ids) ==> a in Log(c, db', w)
      {
        OutcomeCostsNothing(c, db, w, ids, n, db');
      }
    } else {
      var n: nat, j: nat :| n <= steps && j < |log| && Survives(log[j], ids) && !Safe(log, ids, n, j);
      var db' := OutcomeExists(c, db, w, ids, n);
      OutcomeCostsNothing(c, db, w, ids, n, db');
    }
  }

  lemma OutcomeExists(c: Codec, db: Db, w: WorldKey, ids: seq<AtomId>, n: nat) returns (db': Db)
    requires n <= |Removals(c, db, w, ids)|
    ensures CrashOutcome(c, db, w, ids, n, db')
  {
    hide Removals, Reopened, Without;
    var cut := Without(db, Removals(c, db, w, ids)[..n]);
    ReopenExists(c, cut);
    db' :| Reopened(c, cut, db');
  }

  lemma OutcomeCostsNothing(c: Codec, db: Db, w: WorldKey, ids: seq<AtomId>, n: nat, db': Db)
    requires LogInv(c, db) && '/' !in w && CrashOutcome(c, db, w, ids, n, db')
    ensures n <= |Removals(c, db, w, ids)|
    ensures var log := Log(c, db, w);
            (forall a :: a in log && Survives(a, ids) ==> a in Log(c, db', w)) <==>
              forall j :: 0 <= j < |log| && Survives(log[j], ids) ==> Safe(log, ids, n, j)
  {
    hide Log, LogInv, Removals, Reopened, Safe, Survives, Without;
    CrashedDeleteCostsNothing(c, db, w, ids, n, db');
  }

  lemma EnoughSteps(c: Codec, db: Db, w: WorldKey, ids: seq<AtomId>)
    ensures |Removals(c, db, w, ids)| >= 2 * |ids|
  {
  }

  lemma DeadAreNamed(ids: seq<AtomId>, n: nat)
    ensures forall id :: id in Dead(ids, n) ==> id in ids
  {
  }

  // ---------------------------------------------------------------- a second crash, in the reopening

  /**
   The log after a deletion cut at `n` removals, a reopening cut after repair has removed `p` frames of
   the bad tail, and another reopening: the good part, and the good part of what lies behind the gap.
   */
  function AfterTwoCrashes(log: seq<Atom>, ids: seq<AtomId>, n: nat, p: nat): seq<Atom> {
    var left := DropFirst((a: Atom) => !Survives(a, ids), log, FramesGone(ids, n));
    var good := UpToDead(left, Dead(ids, n));
    good + UpToDead(left[if |good| + p <= |left| then |good| + p else |left|..], Dead(ids, n))
  }

  /** The keys that a repair of `w` cut after `p` removals has taken. */
  function RepairStretch(c: Codec, db: Db, w: WorldKey, p: nat): seq<string>
    requires |GoodPrefix(c, db, w, ScanPrefix(db, LogPrefix(w)))| + p <= |ScanPrefix(db, LogPrefix(w))|
  {
    var keys := ScanPrefix(db, LogPrefix(w));
    var g := |GoodPrefix(c, db, w, keys)|;
    keys[g..g + p]
  }

  lemma CrashedTwice(c: Codec, db: Db, w: WorldKey, ids: seq<AtomId>, n: nat, p: nat, db': Db)
    requires LogInv(c, db) && '/' !in w && n <= |Removals(c, db, w, ids)|
    requires var db1 := Without(db, Removals(c, db, w, ids)[..n]);
             && |GoodPrefix(c, db1, w, ScanPrefix(db1, LogPrefix(w)))| + p <= |ScanPrefix(db1, LogPrefix(w))|
             && Reopened(c, Without(db1, RepairStretch(c, db1, w, p)), db')
    ensures LogInv(c, db')
    ensures Log(c, db', w) == AfterTwoCrashes(Log(c, db, w), ids, n, p)
    ensures forall v :: Plain(v) && v != w ==> Log(c, db', v) == Log(c, db, v)
  {
    hide LogPrefix, AtomKey, Log, Removals, AfterTwoCrashes, GoodPrefix, ScanPrefix, RepairStretch, Reopened, Plain, WorldInv, Without;
    SlashFreeIsPlain(w);
    var db1 := db - Gone(c, db, w, ids, n);
    SameAsGone(c, db, w, ids, n);
    CrashedTwiceHere(c, db, w, ids, n, p, db');
    var gone := RepairStretch(c, db1, w, p);
    StretchBelow(c, db1, w, p);
    forall v | Plain(v) && v != w
      ensures WorldInv(c, db', v) && Log(c, db', v) == Log(c, db, v)
    {
      OtherWorlds(c, db, w, ids, n, v);
      OtherLogsKept(c, db1, w, gone, v);
      ReopenedOther(c, Without(db1, gone), db', v);
    }
  }

  lemma SameAsGone(c: Codec, db: Db, w: WorldKey, ids: seq<AtomId>, n: nat)
    requires n <= |Removals(c, db, w, ids)|
    ensures Without(db, Removals(c, db, w, ids)[..n]) == db - Gone(c, db, w, ids, n)
  {
    hide Removals;
  }

  lemma StretchBelow(c: Codec, db: Db, w: WorldKey, p: nat)
    requires |GoodPrefix(c, db, w, ScanPrefix(db, LogPrefix(w)))| + p <= |ScanPrefix(db, LogPrefix(w))|
    ensures forall k :: k in RepairStretch(c, db, w, p) ==> k in ScanPrefix(db, LogPrefix(w)) && Below(LogPrefix(w), k)
  {
    hide LogPrefix, GoodPrefix, Below, Sorted;
  }

  /** Removing log keys of one world leaves every other as it is. */
  lemma OtherLogsKept(c: Codec, db: Db, w: WorldKey, gone: seq<string>, v: WorldKey)
    requires Plain(w) && Plain(v) && v != w && WorldInv(c, db, v) && forall k :: k in gone ==> Below(LogPrefix(w), k)
    ensures WorldInv(c, Without(db, gone), v) && Log(c, Without(db, gone), v) == Log(c, db, v)
  {
    hide LogPrefix, AtomKey, Log, Plain, WorldInv, NextSeq, ScanPrefix;
    forall k | k in gone
      ensures !Below(LogPrefix(v), k) && forall id :: k != AtomKey(v, id)
    {
      if Below(LogPrefix(v), k) { LogsApart(v, w, k); }
      forall id ensures k != AtomKey(v, id) { AtomKeyNotUnderLog(v, id, w); }
    }
    BodiesPresent(c, db, v);
    WorldUnchanged(c, db, Without(db, gone), v);
  }

  /** Frames that stay, and their bodies, when log keys are removed. */
  lemma AtomWithout(c: Codec, db: Db, w: WorldKey, gone: seq<string>, k: string)
    requires Plain(w) && k in db && k !in gone && forall g :: g in gone ==> Below(LogPrefix(w), g)
    ensures var db' := Without(db, gone);
            k in db' && db'[k] == db[k] && AtomAt(c, db', w, k) == AtomAt(c, db, w, k)
            && (GoodKey(c, db', w, k) <==> GoodKey(c, db, w, k))
  {
    hide LogPrefix, AtomKey, Plain;
    forall id ensures AtomKey(w, id) !in gone { AtomKeyNotUnderLog(w, id, w); }
  }

  /** Parts of a log, by parts of its keys. */
  lemma LogOfTail(c: Codec, db: Db, w: WorldKey, keys: seq<string>, m: nat)
    requires m <= |keys| && forall k :: k in keys ==> AtomAt(c, db, w, k).Some?
    ensures |LogOf(c, db, w, keys)| == |keys| && LogOf(c, db, w, keys[m..]) == LogOf(c, db, w, keys)[m..]
  {
    hide AtomAt, LogOf;
    assert keys == keys[..m] + keys[m..];
    assert forall k :: k in keys[..m] ==> k in keys;
    LogOfConcat(c, db, w, keys[..m], keys[m..]);
    LogOfAt(c, db, w, keys);
    LogOfAt(c, db, w, keys[..m]);
  }

  /** The keys that the second repair leaves. */
  lemma SecondRepair(c: Codec, db1: Db, w: WorldKey, x: seq<string>, y: seq<string>, z: seq<string>, db': Db)
    requires '/' !in w && Plain(w) && CanonicalLog(db1, w) && ScanPrefix(db1, LogPrefix(w)) == x + y + z
    requires GoodPrefix(c, db1, w, x + y + z) == x && Reopened(c, Without(db1, y), db')
    ensures var keys := x + GoodPrefix(c, db1, w, z);
            && ScanPrefix(db', LogPrefix(w)) == keys && Log(c, db', w) == LogOf(c, db', w, keys)
            && forall k :: k in keys ==>
                 k in x + y + z && k in db1 && GoodKey(c, db1, w, k) && GoodKey(c, db', w, k) && db'[k] == db1[k]
                 && AtomAt(c, db', w, k) == AtomAt(c, db1, w, k)
  {
    hide LogPrefix, AtomAt, LogOf, Canonical, GoodKey, GoodPrefix, Reopened, Without, Plain;
    var db2 := Without(db1, y);
    ScanCutOut(db1, w, x, y, z);
    AscendingDistinct(x + y + z);
    Apart(x, y, z);
    assert forall k :: k in y ==> k in x + y + z;
    forall k | k in x + z
      ensures k in db1 && k in db2 && db2[k] == db1[k] && AtomAt(c, db2, w, k) == AtomAt(c, db1, w, k)
      ensures GoodKey(c, db2, w, k) <==> GoodKey(c, db1, w, k)
    {
      assert k in x + y + z;
      AtomWithout(c, db1, w, y, k);
    }
    GoodPrefixSame(c, db1, db2, w, x + z);
    GoodPrefixConcat(c, db1, w, x, z);
    assert CanonicalLog(db2, w) by { assert forall k :: k in x + z ==> k in x + y + z; }
    ReopenedLog(c, db2, db', w);
  }

  /** The log behind the keys that the second repair leaves. */
  lemma TwoPrefixLog(c: Codec, db: Db, db1: Db, w: WorldKey, dead: seq<AtomId>, keys: seq<string>, p: nat)
    requires forall k :: k in keys ==> AtomAt(c, db, w, k).Some?
    requires forall k :: k in keys ==> GoodKey(c, db1, w, k) == Survives(AtomAt(c, db, w, k).value, dead)
    requires |GoodPrefix(c, db1, w, keys)| + p <= |keys|
    ensures var g := |GoodPrefix(c, db1, w, keys)|;
            var left := LogOf(c, db, w, keys);
            var good := UpToDead(left, dead);
            && |left| == |keys| && |good| == g
            && LogOf(c, db, w, keys[..g] + GoodPrefix(c, db1, w, keys[g + p..])) == good + UpToDead(left[g + p..], dead)
  {
    hide AtomAt, LogOf, GoodPrefix, GoodKey, Survives, UpToDead;
    var g := |GoodPrefix(c, db1, w, keys)|;
    var x, z := keys[..g], keys[g + p..];
    GoodPart(c, db, db1, w, dead, keys);
    LogOfTail(c, db, w, keys, g + p);
    forall k | k in z ensures k in keys {
      var i :| 0 <= i < |z| && z[i] == k;
      assert keys[g + p + i] == k;
    }
    PrefixLog(c, db, db1, w, dead, z);
    LogOfConcat(c, db, w, x, GoodPrefix(c, db1, w, z));
  }

  lemma GoodPart(c: Codec, db: Db, db1: Db, w: WorldKey, dead: seq<AtomId>, keys: seq<string>)
    requires forall k :: k in keys ==> AtomAt(c, db, w, k).Some?
    requires forall k :: k in keys ==> GoodKey(c, db1, w, k) == Survives(AtomAt(c, db, w, k).value, dead)
    ensures var g := |GoodPrefix(c, db1, w, keys)|;
            var good := UpToDead(LogOf(c, db, w, keys), dead);
            g <= |keys| && |good| == g && LogOf(c, db, w, keys[..g]) == good
  {
    hide AtomAt, LogOf, GoodPrefix, GoodKey, Survives, UpToDead;
    var x := GoodPrefix(c, db1, w, keys);
    assert x == keys[..|x|] && forall k :: k in x ==> k in keys;
    PrefixLog(c, db, db1, w, dead, keys);
    LogOfAt(c, db, w, x);
  }

  /** The log keys that two crashes leave. */
  function TwiceKeys(c: Codec, db1: Db, w: WorldKey, p: nat): seq<string>
    requires |GoodPrefix(c, db1, w, ScanPrefix(db1, LogPrefix(w)))| + p <= |ScanPrefix(db1, LogPrefix(w))|
  {
    var keys := ScanPrefix(db1, LogPrefix(w));
    var g := |GoodPrefix(c, db1, w, keys)|;
    keys[..g] + GoodPrefix(c, db1, w, keys[g + p..])
  }

  lemma TwiceLeaves(c: Codec, db1: Db, w: WorldKey, p: nat, db': Db)
    requires '/' !in w && Plain(w) && CanonicalLog(db1, w)
    requires |GoodPrefix(c, db1, w, ScanPrefix(db1, LogPrefix(w)))| + p <= |ScanPrefix(db1, LogPrefix(w))|
    requires Reopened(c, Without(db1, RepairStretch(c, db1, w, p)), db')
    ensures var keys := TwiceKeys(c, db1, w, p);
            && ScanPrefix(db', LogPrefix(w)) == keys && Log(c, db', w) == LogOf(c, db', w, keys)
            && forall k :: k in keys ==>
                 k in ScanPrefix(db1, LogPrefix(w)) && k in db1 && GoodKey(c, db1, w, k) && GoodKey(c, db', w, k)
                 && db'[k] == db1[k] && AtomAt(c, db', w, k) == AtomAt(c, db1, w, k)
  {
    hide LogPrefix, LogOf, GoodPrefix, Reopened, Plain, Without, GoodKey, Canonical, AtomAt, ScanPrefix;
    var keys := ScanPrefix(db1, LogPrefix(w));
    var g := |GoodPrefix(c, db1, w, keys)|;
    var x, y, z := keys[..g], keys[g..g + p], keys[g + p..];
    assert keys == x + y + z;
    SecondRepair(c, db1, w, x, y, z, db');
  }

  lemma TwiceLog(c: Codec, db: Db, w: WorldKey, ids: seq<AtomId>, n: nat, p: nat)
    requires LogInv(c, db) && Plain(w) && n <= |Removals(c, db, w, ids)|
    requires var db1 := db - Gone(c, db, w, ids, n);
             |GoodPrefix(c, db1, w, ScanPrefix(db1, LogPrefix(w)))| + p <= |ScanPrefix(db1, LogPrefix(w))|
    ensures LogOf(c, db, w, TwiceKeys(c, db - Gone(c, db, w, ids, n), w, p)) == AfterTwoCrashes(Log(c, db, w), ids, n, p)
  {
    hide LogPrefix, Removals, GoodPrefix, Plain, Gone, GoodKey, AtomAt, Survives, Dead, FramesGone, DropFirst, UpToDead,
         ScanPrefix, LogInv, LogOf;
    var db1 := db - Gone(c, db, w, ids, n);
    DeleteSteps(c, db, w, ids, n);
    TwoPrefixLog(c, db, db1, w, Dead(ids, n), ScanPrefix(db1, LogPrefix(w)), p);
  }

  lemma CrashedTwiceHere(c: Codec, db: Db, w: WorldKey, ids: seq<AtomId>, n: nat, p: nat, db': Db)
    requires LogInv(c, db) && '/' !in w && Plain(w) && n <= |Removals(c, db, w, ids)|
    requires var db1 := db - Gone(c, db, w, ids, n);
             && |GoodPrefix(c, db1, w, ScanPrefix(db1, LogPrefix(w)))| + p <= |ScanPrefix(db1, LogPrefix(w))|
             && Reopened(c, Without(db1, RepairStretch(c, db1, w, p)), db')
    ensures WorldInv(c, db', w) && Log(c, db', w) == AfterTwoCrashes(Log(c, db, w), ids, n, p)
  {
    hide LogPrefix, LogOf, Removals, GoodPrefix, Reopened, Plain, Without, Gone, GoodKey, AtomAt, ScanPrefix, LogInv,
         TwiceKeys, AfterTwoCrashes, RepairStretch, CanonicalLog, WorldInv;
    var db1 := db - Gone(c, db, w, ids, n);
    InvHere(c, db, w);
    DeletedKeys(c, db, w, ids, n);
    CanonicalPart(c, db, db1, w);
    TwiceLeaves(c, db1, w, p, db');
    var kept := TwiceKeys(c, db1, w, p);
    KeptFrames(c, db, w, ids, n, ScanPrefix(db1, LogPrefix(w)), kept, db');
    LogOfSame(c, db, db', w, kept);
    TwiceLog(c, db, w, ids, n, p);
    SubLogSound(c, db, db', w);
  }

  /** What is left of the log keys, and what the good ones among them lead to. */
  lemma DeletedKeys(c: Codec, db: Db, w: WorldKey, ids: seq<AtomId>, n: nat)
    requires LogInv(c, db) && Plain(w) && n <= |Removals(c, db, w, ids)|
    ensures var db1 := db - Gone(c, db, w, ids, n);
            forall k :: k in ScanPrefix(db1, LogPrefix(w)) ==>
              k in ScanPrefix(db, LogPrefix(w))
              && (GoodKey(c, db1, w, k) ==> AtomAt(c, db1, w, k) == AtomAt(c, db, w, k))
  {
    hide LogPrefix, LogOf, Removals, Plain, Gone, GoodKey, AtomAt, ScanPrefix, LogInv, DropFirst;
    DeleteSteps(c, db, w, ids, n);
  }

  lemma CanonicalPart(c: Codec, db: Db, db1: Db, w: WorldKey)
    requires CanonicalLog(db, w)
    requires forall k :: k in ScanPrefix(db1, LogPrefix(w)) ==> k in ScanPrefix(db, LogPrefix(w))
    ensures CanonicalLog(db1, w)
  {
    hide LogPrefix, ScanPrefix, Canonical;
  }

  lemma KeptFrames(c: Codec, db: Db, w: WorldKey, ids: seq<AtomId>, n: nat, keys1: seq<string>, kept: seq<string>, db': Db)
    requires n <= |Removals(c, db, w, ids)|
    requires var db1 := db - Gone(c, db, w, ids, n);
             && (forall k :: k in keys1 ==>
                   k in ScanPrefix(db, LogPrefix(w))
                   && (GoodKey(c, db1, w, k) ==> AtomAt(c, db1, w, k) == AtomAt(c, db, w, k)))
             && forall k :: k in kept ==>
                  k in keys1 && k in db1 && GoodKey(c, db1, w, k) && GoodKey(c, db', w, k) && db'[k] == db1[k]
                  && AtomAt(c, db', w, k) == AtomAt(c, db1, w, k)
    ensures forall k :: k in kept ==>
              k in ScanPrefix(db, LogPrefix(w)) && k in db && GoodKey(c, db', w, k) && db'[k] == db[k]
              && AtomAt(c, db', w, k) == AtomAt(c, db, w, k)
  {
    hide LogPrefix, Removals, Gone, GoodKey, AtomAt, ScanPrefix;
  }

  lemma InvHere(c: Codec, db: Db, w: WorldKey)
    requires LogInv(c, db) && Plain(w)
    ensures WorldInv(c, db, w) && CanonicalLog(db, w)
  {
    hide Plain, Canonical, Sound;
    assert WorldInv(c, db, w);
  }

  // ---------------------------------------------------------------- worlds that no repair visits

  lemma {:induction false} ReadableLog(
    c: Codec, db: Db, db1: Db, w: WorldKey, alive: Atom -> bool, keys: seq<string>)
    requires forall k :: k in keys ==> AtomAt(c, db, w, k).Some?
    requires forall k :: k in keys ==>
               AtomAt(c, db1, w, k) == if alive(AtomAt(c, db, w, k).value) then AtomAt(c, db, w, k) else None
    ensures LogOf(c, db1, w, keys) == Keep(alive, LogOf(c, db, w, keys))
  {
    hide AtomAt, Keep;
    if keys == [] {
      KeepNone(alive, []);
    } else {
      var a := AtomAt(c, db, w, keys[0]).value;
      var rest := keys[1..];
      assert keys[0] in keys && forall k :: k in rest ==> k in keys;
      assert LogOf(c, db, w, keys) == [a] + LogOf(c, db, w, rest);
      ReadableLog(c, db, db1, w, alive, rest);
      KeepCons(alive, a, LogOf(c, db, w, rest));
    }
  }

  /**
   The same crash in a world whose name has a slash: no repair follows, so scans skip the atoms whose
   bodies are gone and nothing else is lost; but their frames stay in the log.
   */
  lemma CrashedDeleteUnrepaired(c: Codec, db: Db, w: WorldKey, ids: seq<AtomId>, n: nat, db': Db)
    requires LogInv(c, db) && Plain(w) && '/' in w && n <= |Removals(c, db, w, ids)|
    requires Reopened(c, Without(db, Removals(c, db, w, ids)[..n]), db')
    ensures Log(c, db', w) == Keep((a: Atom) => Survives(a, Dead(ids, n)),
                                   DropFirst((a: Atom) => !Survives(a, ids), Log(c, db, w), FramesGone(ids, n)))
    ensures ScanPrefix(db', LogPrefix(w))
         == DropFirst((k: string) => FrameNames(c, db, ids, k), ScanPrefix(db, LogPrefix(w)), FramesGone(ids, n))
  {
    hide LogPrefix, AtomKey, IndexKey, LogKey, Sorted, SeqOf, LogOf, Below, Removals, UpToDead, DropFirst, GoodKey,
         Dead, FramesGone, IndexFrom, Plain, Repair, Survives, Keep, WorldInv, Canonical;
    var db1 := db - Gone(c, db, w, ids, n);
    assert db1 == Without(db, Removals(c, db, w, ids)[..n]);
    DeleteSteps(c, db, w, ids, n);
    SlashedLogNotRepaired(c, db1, w);
    RepairTouchesOwnLogs(c, db1, w);
    LogsOutsideIndex(Repair(c, db1), db', w);
    var keys1 := ScanPrefix(db1, LogPrefix(w));
    forall k | k in keys1
      ensures AtomAt(c, db', w, k)
           == if Survives(AtomAt(c, db, w, k).value, Dead(ids, n)) then AtomAt(c, db, w, k) else None
    {
      SlashedAtom(c, db, w, ids, n, db', k);
    }
    ReadableLog(c, db, db', w, (a: Atom) => Survives(a, Dead(ids, n)), keys1);
  }

  lemma SlashedAtom(c: Codec, db: Db, w: WorldKey, ids: seq<AtomId>, n: nat, db': Db, k: string)
    requires LogInv(c, db) && Plain(w) && '/' in w && n <= |Removals(c, db, w, ids)|
    requires Reopened(c, db - Gone(c, db, w, ids, n), db')
    requires k in ScanPrefix(db - Gone(c, db, w, ids, n), LogPrefix(w)) && AtomAt(c, db, w, k).Some?
    requires k in ScanPrefix(db, LogPrefix(w))
    ensures AtomAt(c, db', w, k)
         == if Survives(AtomAt(c, db, w, k).value, Dead(ids, n)) then AtomAt(c, db, w, k) else None
  {
    hide LogPrefix, AtomKey, IndexKey, LogKey, Sorted, SeqOf, Removals, Dead, FramesGone, Plain, Repair, FrameRemovals, Gone;
    var db1 := db - Gone(c, db, w, ids, n);
    var id := ListedId(c, db, k);
    assert WorldInv(c, db, w) && Sound(c, db, w, k);
    GoneKeys(c, db, w, ids, n);
    RepairTouchesOwnLogs(c, db1, w);
    RepairSubmap(c, db1);
    WorldsSlashFree(c, db1, w);
    LogKeyNotIndex(w, k);
    AtomKeyNotIndex(w, id);
    assert k in db' && db'[k] == db[k];
    assert AtomKey(w, id) in db' <==> id !in Dead(ids, n);
  }

  lemma RepairSubmap(c: Codec, db: Db)
    ensures forall k :: k in Repair(c, db) ==> k in db && Repair(c, db)[k] == db[k]
  {
  }

  lemma WorldsSlashFree(c: Codec, db: Db, w: WorldKey)
    requires '/' in w
    ensures w !in Worlds(db)
  {
    if w in Worlds(db) { WorldsAreSlashFree(db, w); }
  }
}
