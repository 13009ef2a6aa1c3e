/** Repair of arbitrarily damaged logs: it keeps the longest good prefix of each, and nothing else moves. */
module SledRepair {
  import opened Prelude
  import opened Text
  import opened OrderedMap
  import opened Atoms
  import opened SledKeys
  import opened SledStore
  import opened SledStorage
  import opened SledLogs
  import opened SledCrash

  predicate GoodKey(c: Codec, db: Db, w: WorldKey, k: string) {
    k in db && GoodFrame(c, db, w, db[k])
  }

  /** The longest prefix of `keys` whose frames are all good. */
  function GoodPrefix(c: Codec, db: Db, w: WorldKey, keys: seq<string>): (r: seq<string>)
    ensures r <= keys
    ensures forall k :: k in r ==> GoodKey(c, db, w, k)
    ensures |r| < |keys| ==> !GoodKey(c, db, w, keys[|r|])
  {
    if keys == [] || !GoodKey(c, db, w, keys[0]) then [] else [keys[0]] + GoodPrefix(c, db, w, keys[1..])
  }

  /** A prefix that stops at the first bad frame is the longest good one. */
  lemma {:induction false} GoodPrefixIs(c: Codec, db: Db, w: WorldKey, keys: seq<string>, n: nat)
    requires n <= |keys|
    requires forall i :: 0 <= i < n ==> GoodKey(c, db, w, keys[i])
    requires n < |keys| ==> !GoodKey(c, db, w, keys[n])
    ensures GoodPrefix(c, db, w, keys) == keys[..n]
  {
    if n > 0 { GoodPrefixIs(c, db, w, keys[1..], n - 1); }
  }

  /** The bad sequence number repair finds is that of the key just after the good prefix. */
  lemma {:induction false} FirstBadFollowsPrefix(c: Codec, db: Db, w: WorldKey, keys: seq<string>)
    requires forall k :: k in keys ==> k in db && SeqOf(k).Some?
    ensures var n := |GoodPrefix(c, db, w, keys)|;
            FirstBad(c, db, w, keys) == if n == |keys| then None else SeqOf(keys[n])
  {
    hide SeqOf, GoodFrame;
    if keys != [] {
      assert keys[0] in keys && forall k :: k in keys[1..] ==> k in keys;
      if GoodKey(c, db, w, keys[0]) { FirstBadFollowsPrefix(c, db, w, keys[1..]); }
    }
  }

  lemma CanonicalAscends(w: WorldKey, keys: seq<string>)
    requires Ascending(keys) && forall i :: 0 <= i < |keys| ==> Canonical(w, keys[i])
    ensures forall i :: 0 <= i < |keys| ==> SeqOf(keys[i]).Some?
    ensures forall i, j :: 0 <= i < j < |keys| ==> SeqOf(keys[i]).value < SeqOf(keys[j]).value
  {
    assert forall i :: 0 <= i < |keys| ==> Canonical(w, keys[i]);
    forall i, j | 0 <= i < j < |keys|
      ensures SeqOf(keys[i]).value < SeqOf(keys[j]).value
    {
      LogKeyOrder(w, SeqOf(keys[i]).value, SeqOf(keys[j]).value);
    }
  }

  ghost predicate CanonicalLog(db: Db, w: WorldKey) {
    forall k :: k in ScanPrefix(db, LogPrefix(w)) ==> Canonical(w, k)
  }

  /** What repair removes from a damaged log is exactly what follows the longest good prefix. */
  lemma DoomedIsTail(c: Codec, db: Db, w: WorldKey)
    requires CanonicalLog(db, w)
    ensures var keys := ScanPrefix(db, LogPrefix(w));
            |GoodPrefix(c, db, w, keys)| <= |keys| &&
            forall k :: k in Doomed(c, db, w) <==> k in keys[|GoodPrefix(c, db, w, keys)|..]
  {
    hide LogPrefix, SeqOf, LogKey, Sorted, GoodPrefix, FirstBad, Below, Canonical, ScanPrefix;
    var keys := ScanPrefix(db, LogPrefix(w));
    var n := |GoodPrefix(c, db, w, keys)|;
    assert forall i :: 0 <= i < |keys| ==> keys[i] in keys;
    CanonicalAscends(w, keys);
    FirstBadFollowsPrefix(c, db, w, keys);
    if n < |keys| { TailBySeq(keys, n, SeqOf(keys[n]).value); }
  }

  /** In ascending sequence numbers, the tail from `n` is what is not below the number at `n`. */
  lemma TailBySeq(keys: seq<string>, n: nat, bad: nat)
    requires n < |keys| && forall i :: 0 <= i < |keys| ==> SeqOf(keys[i]).Some?
    requires forall i, j :: 0 <= i < j < |keys| ==> SeqOf(keys[i]).value < SeqOf(keys[j]).value
    requires bad == SeqOf(keys[n]).value
    ensures forall k :: k in keys && AtOrPast(k, bad) <==> k in keys[n..]
  {
    hide SeqOf;
    forall k
      ensures k in keys && AtOrPast(k, bad) <==> k in keys[n..]
    {
      if k in keys && AtOrPast(k, bad) {
        var i :| 0 <= i < |keys| && keys[i] == k;
        assert keys[n..][i - n] == k;
      }
    }
  }

  lemma {:induction false} KeepPrefix(keys: seq<string>, n: nat)
    requires n <= |keys| && Distinct(keys)
    ensures Keep((k: string) => k !in keys[n..], keys) == keys[..n]
  {
    var f := (k: string) => k !in keys[n..];
    assert keys == keys[..n] + keys[n..];
    KeepAppend(f, keys[..n], keys[n..]);
    forall k | k in keys[..n] ensures f(k) {
      var i :| 0 <= i < n && keys[i] == k;
    }
    KeepAll(f, keys[..n]);
    KeepNone(f, keys[n..]);
  }

  /**
   For any damage to frames and bodies: repairing a world leaves exactly its longest good prefix,
   leaves every key outside its log alone, and does nothing when repeated.
   */
  lemma RepairKeepsLongestGoodPrefix(c: Codec, db: Db, w: WorldKey)
    requires Plain(w) && CanonicalLog(db, w)
    ensures var keys := ScanPrefix(db, LogPrefix(w));
            ScanPrefix(RepairWorld(c, db, w), LogPrefix(w)) == GoodPrefix(c, db, w, keys)
    ensures forall k :: k in RepairWorld(c, db, w) ==> k in db && RepairWorld(c, db, w)[k] == db[k]
    ensures forall k :: k in db && !Below(LogPrefix(w), k) ==> k in RepairWorld(c, db, w)
    ensures RepairWorld(c, RepairWorld(c, db, w), w) == RepairWorld(c, db, w)
  {
    hide LogPrefix, GoodPrefix, ScanPrefix, Doomed, Below, Canonical;
    RepairLeavesPrefix(c, db, w);
    RepairRepeats(c, db, w);
  }

  lemma RepairLeavesPrefix(c: Codec, db: Db, w: WorldKey)
    requires CanonicalLog(db, w)
    ensures ScanPrefix(RepairWorld(c, db, w), LogPrefix(w)) == GoodPrefix(c, db, w, ScanPrefix(db, LogPrefix(w)))
  {
    hide LogPrefix, GoodPrefix, ScanPrefix, Doomed, Canonical, Keep;
    var keys := ScanPrefix(db, LogPrefix(w));
    var g := |GoodPrefix(c, db, w, keys)|;
    var gone := Doomed(c, db, w);
    DoomedIsTail(c, db, w);
    ScanRemove(db, gone, LogPrefix(w));
    AscendingDistinct(keys);
    KeepCongruent((k: string) => k !in gone, (k: string) => k !in keys[g..], keys);
    KeepPrefix(keys, g);
  }

  /** A repaired log has no bad frame. */
  lemma RepairRepeats(c: Codec, db: Db, w: WorldKey)
    requires Plain(w) && CanonicalLog(db, w)
    ensures RepairWorld(c, RepairWorld(c, db, w), w) == RepairWorld(c, db, w)
  {
    hide LogPrefix, AtomKey, ScanPrefix, GoodPrefix, FirstBad, Canonical, Plain;
    var db' := RepairWorld(c, db, w);
    var keys := ScanPrefix(db, LogPrefix(w));
    var good := GoodPrefix(c, db, w, keys);
    RepairLeavesPrefix(c, db, w);
    forall k | k in good
      ensures k in db' && GoodFrame(c, db', w, db'[k])
    {
      assert k in ScanPrefix(db', LogPrefix(w)) && GoodKey(c, db, w, k);
      AtomKeyNotUnderLog(w, ListedId(c, db, k), w);
    }
    NoBadFrame(c, db', w, good);
  }

  /** After the repair of all discovered worlds, each slash-free log is its longest good prefix. */
  lemma RepairAllPrefix(c: Codec, db: Db, w: WorldKey)
    requires '/' !in w && CanonicalLog(db, w)
    ensures ScanPrefix(Repair(c, db), LogPrefix(w)) == GoodPrefix(c, db, w, ScanPrefix(db, LogPrefix(w)))
  {
    SlashFreeIsPlain(w);
    RepairTouchesOwnLogs(c, db, w);
    RepairKeepsLongestGoodPrefix(c, db, w);
    if w in Worlds(db) {
      ScanSame(RepairWorld(c, db, w), Repair(c, db), LogPrefix(w));
    } else {
      LogImpliesWorld(db, w);
      ScanSame(db, Repair(c, db), LogPrefix(w));
    }
  }

  lemma RepairTouchesOwnLogs(c: Codec, db: Db, w: WorldKey)
    requires Plain(w)
    ensures forall k :: Below(LogPrefix(w), k) ==>
              (k in Repair(c, db) <==> k in db && !(w in Worlds(db) && k in Doomed(c, db, w)))
    ensures forall id :: AtomKey(w, id) in Repair(c, db) <==> AtomKey(w, id) in db
  {
    hide LogPrefix, AtomKey, Doomed, WorldOf;
    forall k, v | Below(LogPrefix(w), k) && v in Worlds(db) && v != w
      ensures k !in Doomed(c, db, v)
    {
      SlashFreeIsPlain(v);
      if k in Doomed(c, db, v) { LogsApart(w, v, k); }
    }
    forall id, v | v in Worlds(db)
      ensures AtomKey(w, id) !in Doomed(c, db, v)
    {
      SlashFreeIsPlain(v);
      AtomKeyNotUnderLog(w, id, v);
    }
  }

  /** A slash-free world with a canonical log key is discovered. */
  lemma LogImpliesWorld(db: Db, w: WorldKey)
    requires '/' !in w && CanonicalLog(db, w) && w !in Worlds(db)
    ensures ScanPrefix(db, LogPrefix(w)) == []
  {
    var keys := ScanPrefix(db, LogPrefix(w));
    if keys != [] {
      var k := keys[0];
      assert k in keys;
      WorldOfLogKey(w, SeqOf(k).value);
      LogKeyBelowWorld(w, SeqOf(k).value);
    }
  }

  lemma LogKeyBelowWorld(w: WorldKey, n: nat)
    ensures Below(WORLD, LogKey(w, n))
  {
  }

  /** A world whose name has a slash is never repaired, whatever its damage. */
  lemma SlashedLogNotRepaired(c: Codec, db: Db, w: WorldKey)
    requires Plain(w) && '/' in w
    ensures ScanPrefix(Repair(c, db), LogPrefix(w)) == ScanPrefix(db, LogPrefix(w))
  {
    RepairTouchesOwnLogs(c, db, w);
    ScanSame(db, Repair(c, db), LogPrefix(w));
  }

  // ---------------------------------------------------------------- a repair cut short

  lemma GoodPrefixCons(c: Codec, db: Db, w: WorldKey, k: string, keys: seq<string>)
    requires GoodKey(c, db, w, k)
    ensures GoodPrefix(c, db, w, [k] + keys) == [k] + GoodPrefix(c, db, w, keys)
  {
    hide GoodKey;
    assert ([k] + keys)[1..] == keys;
  }

  lemma {:induction false} GoodPrefixConcat(c: Codec, db: Db, w: WorldKey, x: seq<string>, y: seq<string>)
    requires forall i :: 0 <= i < |x| ==> GoodKey(c, db, w, x[i])
    ensures GoodPrefix(c, db, w, x + y) == x + GoodPrefix(c, db, w, y)
  {
    hide GoodKey, GoodPrefix;
    if x == [] {
      assert x + y == y && x + GoodPrefix(c, db, w, y) == GoodPrefix(c, db, w, y);
    } else {
      var rest := GoodPrefix(c, db, w, y);
      GoodPrefixConcat(c, db, w, x[1..], y);
      GoodPrefixCons(c, db, w, x[0], x[1..] + y);
      assert x + y == [x[0]] + (x[1..] + y);
      assert x + rest == [x[0]] + (x[1..] + rest);
    }
  }

  lemma {:induction false} GoodPrefixSame(c: Codec, db: Db, db': Db, w: WorldKey, keys: seq<string>)
    requires forall i :: 0 <= i < |keys| ==> GoodKey(c, db', w, keys[i]) == GoodKey(c, db, w, keys[i])
    ensures GoodPrefix(c, db', w, keys) == GoodPrefix(c, db, w, keys)
  {
    hide GoodKey;
    if keys != [] { GoodPrefixSame(c, db, db', w, keys[1..]); }
  }

  /** Cutting a stretch out of distinct keys. */
  lemma CutOut(f: string -> bool, x: seq<string>, y: seq<string>, z: seq<string>)
    requires forall k :: f(k) <==> k !in y
    requires Distinct(x + y + z)
    ensures Keep(f, x + y + z) == x + z
  {
    hide Keep;
    KeepAppend(f, x + y, z);
    KeepAppend(f, x, y);
    Apart(x, y, z);
    KeepAll(f, x);
    KeepAll(f, z);
    KeepNone(f, y);
    assert x + [] + z == x + z;
  }

  lemma Apart(x: seq<string>, y: seq<string>, z: seq<string>)
    requires Distinct(x + y + z)
    ensures forall k :: k in y ==> k !in x && k !in z
  {
    var all := x + y + z;
    forall k | k in y
      ensures k !in x && k !in z
    {
      var i :| 0 <= i < |y| && y[i] == k;
      assert all[|x| + i] == k;
      assert forall j :: 0 <= j < |x| ==> all[j] == x[j];
      assert forall j :: 0 <= j < |z| ==> all[|x| + |y| + j] == z[j];
    }
  }

  /** The log keys left when a stretch of them has been removed. */
  lemma ScanCutOut(db: Db, w: WorldKey, x: seq<string>, y: seq<string>, z: seq<string>)
    requires ScanPrefix(db, LogPrefix(w)) == x + y + z
    ensures ScanPrefix(Without(db, y), LogPrefix(w)) == x + z
  {
    hide LogPrefix, Sorted, Keep, ScanPrefix;
    var gone := set k | k in y;
    var f := (k: string) => k !in gone;
    ScanRemove(db, gone, LogPrefix(w));
    AscendingDistinct(x + y + z);
    CutOut(f, x, y, z);
  }

  /** A log key's frame decodes, and the body it names is stored and has the checksum it gives. */
  ghost predicate Checks(c: Codec, db: Db, w: WorldKey, k: string) {
    exists f :: k in db && c.decodeFrame(db[k]) == Some(f)
      && AtomKey(w, f.atomId) in db && c.checksum(db[AtomKey(w, f.atomId)]) == f.checksum
  }

  /** So a log key survives repair exactly when its frame and every frame before it check out. */
  lemma RepairedExactly(c: Codec, db: Db, w: WorldKey, k: string)
    requires Plain(w) && CanonicalLog(db, w) && k in db && Below(LogPrefix(w), k)
    ensures k in RepairWorld(c, db, w) <==>
              forall j :: j in db && Below(LogPrefix(w), j) && (j == k || LexLess(j, k)) ==> Checks(c, db, w, j)
  {
    hide LogPrefix, Canonical, RepairWorld, ScanPrefix, LexLess, Below, AtomKey, Plain, GoodPrefix, Checks, GoodFrame;
    var keys := ScanPrefix(db, LogPrefix(w));
    var good := GoodPrefix(c, db, w, keys);
    RepairLeavesPrefix(c, db, w);
    assert k in keys;
    var n :| 0 <= n < |keys| && keys[n] == k;
    AscendingDistinct(keys);
    assert k in RepairWorld(c, db, w) <==> n < |good| by {
      assert k in RepairWorld(c, db, w) <==> k in good;
      if n < |good| { assert good[n] == k; }
    }
    forall i | 0 <= i < |keys| ensures GoodKey(c, db, w, keys[i]) <==> Checks(c, db, w, keys[i]) {
      ChecksIs(c, db, w, keys[i]);
    }
    forall i | 0 <= i < |good| ensures Checks(c, db, w, keys[i]) { assert good[i] == keys[i] && good[i] in good; }
    if n < |good| {
      forall j | j in db && Below(LogPrefix(w), j) && (j == k || LexLess(j, k))
        ensures Checks(c, db, w, j)
      {
        assert j in keys;
        var i :| 0 <= i < |keys| && keys[i] == j;
        if i > n { LexAsymmetric(k, j); }
      }
    } else {
      assert keys[|good|] in keys && (|good| == n || LexLess(keys[|good|], k));
    }
  }

  lemma ChecksIs(c: Codec, db: Db, w: WorldKey, k: string)
    ensures GoodKey(c, db, w, k) <==> Checks(c, db, w, k)
  {
    hide AtomKey;
  }

  /**
   Repair removes a bad tail key by key, oldest first. Cut short after `n` removals, the next repair
   finds no trace of them: what it leaves is the good prefix and then every good frame that follows
   the removed stretch, so the log need no longer be a prefix of what it was.
   */
  lemma RepairCutShort(c: Codec, db: Db, w: WorldKey, n: nat)
    requires Plain(w) && CanonicalLog(db, w)
    requires |GoodPrefix(c, db, w, ScanPrefix(db, LogPrefix(w)))| + n <= |ScanPrefix(db, LogPrefix(w))|
    ensures var keys := ScanPrefix(db, LogPrefix(w));
            var g := |GoodPrefix(c, db, w, keys)|;
            ScanPrefix(RepairWorld(c, Without(db, keys[g..g + n]), w), LogPrefix(w))
            == keys[..g] + GoodPrefix(c, db, w, keys[g + n..])
  {
    hide LogPrefix, Canonical, RepairWorld, ScanPrefix, Without, GoodKey, GoodPrefix;
    var keys := ScanPrefix(db, LogPrefix(w));
    var g := |GoodPrefix(c, db, w, keys)|;
    var x, y, z := keys[..g], keys[g..g + n], keys[g + n..];
    assert keys == x + y + z;
    var cut := Without(db, y);
    ScanCutOut(db, w, x, y, z);
    assert forall k :: k in x + z ==> k in keys;
    RepairKeepsLongestGoodPrefix(c, cut, w);
    AscendingDistinct(keys);
    Apart(x, y, z);
    GoodWithout(c, db, w, y, x + z);
    GoodPrefixSame(c, db, cut, w, x + z);
    GoodPrefixConcat(c, db, w, x, z);
  }

  /**
   So a repair cut short and run again leaves the good prefix and no more exactly when the removals
   reached the end, or stopped before another bad frame; otherwise the log has a gap.
   */
  lemma RepairCutShortKeepsPrefix(c: Codec, db: Db, w: WorldKey, n: nat)
    requires Plain(w) && CanonicalLog(db, w)
    requires |GoodPrefix(c, db, w, ScanPrefix(db, LogPrefix(w)))| + n <= |ScanPrefix(db, LogPrefix(w))|
    ensures var keys := ScanPrefix(db, LogPrefix(w));
            var g := |GoodPrefix(c, db, w, keys)|;
            ScanPrefix(RepairWorld(c, Without(db, keys[g..g + n]), w), LogPrefix(w)) == keys[..g] <==>
              g + n == |keys| || !GoodKey(c, db, w, keys[g + n])
  {
    hide LogPrefix, Canonical, RepairWorld, ScanPrefix, Without, GoodKey, GoodPrefix;
    var keys := ScanPrefix(db, LogPrefix(w));
    var g := |GoodPrefix(c, db, w, keys)|;
    RepairCutShort(c, db, w, n);
    if g + n < |keys| {
      assert keys[g + n..][0] == keys[g + n];
      FirstDecides(c, db, w, keys[g + n..]);
    }
  }

  /** What a repair that has `n` bad keys removed and runs again leaves is the good prefix. */
  ghost predicate CutKeepsPrefix(c: Codec, db: Db, w: WorldKey, n: nat) {
    var keys := ScanPrefix(db, LogPrefix(w));
    var g := |GoodPrefix(c, db, w, keys)|;
    g + n <= |keys| ==>
      ScanPrefix(RepairWorld(c, Without(db, keys[g..g + n]), w), LogPrefix(w)) == keys[..g]
  }

  /** Every cut of a repair keeps the good prefix exactly when no good frame follows the first bad one. */
  lemma EveryCutKeepsPrefix(c: Codec, db: Db, w: WorldKey)
    requires Plain(w) && CanonicalLog(db, w)
    ensures var keys := ScanPrefix(db, LogPrefix(w));
            (forall n: nat :: CutKeepsPrefix(c, db, w, n)) <==>
              forall j :: |GoodPrefix(c, db, w, keys)| <= j < |keys| ==> !GoodKey(c, db, w, keys[j])
  {
    hide LogPrefix, Canonical, RepairWorld, ScanPrefix, Without, GoodKey, GoodPrefix;
    var keys := ScanPrefix(db, LogPrefix(w));
    var g := |GoodPrefix(c, db, w, keys)|;
    forall n: nat
      ensures CutKeepsPrefix(c, db, w, n) <==> g + n >= |keys| || !GoodKey(c, db, w, keys[g + n])
    {
      if g + n <= |keys| { RepairCutShortKeepsPrefix(c, db, w, n); }
    }
    if j :| g <= j < |keys| && GoodKey(c, db, w, keys[j]) {
      assert !CutKeepsPrefix(c, db, w, j - g);
    }
  }

  lemma FirstDecides(c: Codec, db: Db, w: WorldKey, keys: seq<string>)
    requires keys != []
    ensures GoodPrefix(c, db, w, keys) == [] <==> !GoodKey(c, db, w, keys[0])
  {
    hide GoodKey;
  }

  lemma GoodWithout(c: Codec, db: Db, w: WorldKey, gone: seq<string>, keys: seq<string>)
    requires Plain(w) && forall k :: k in gone ==> k in ScanPrefix(db, LogPrefix(w)) && k !in keys
    ensures forall k :: k in keys ==> GoodKey(c, Without(db, gone), w, k) == GoodKey(c, db, w, k)
  {
    hide LogPrefix, AtomKey;
    forall id ensures AtomKey(w, id) !in gone { AtomKeyNotUnderLog(w, id, w); }
  }
}
