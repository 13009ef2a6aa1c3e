/**
 The textual keys under which one flat ordered map holds bodies, log frames and the id index.
 World names may contain slashes (tenant worlds do), so the keys of two worlds are kept apart
 by a weaker condition than being slash-free: see `Plain`.
 */
module SledKeys {
  import opened Prelude
  import opened Text
  import opened OrderedMap
  import opened Atoms

  const WORLD: string := "world/"
  const ATOMS: string := "/atoms/"
  const LOG: string := "/log/"
  const INDEX: string := "idx/atom/"

  function AtomKey(w: WorldKey, id: AtomId): string { WORLD + w + ATOMS + id }

  function LogPrefix(w: WorldKey): string { WORLD + w + LOG }

  function LogKey(w: WorldKey, n: nat): string { WORLD + w + LOG + Padded(n, SEQ_WIDTH) }

  function IndexKey(id: AtomId): string { INDEX + id }

  /** The sequence number of a log key: its last segment, parsed. */
  function SeqOf(k: string): (r: Option<nat>)
    ensures r.Some? ==> r.value < U64_LIMIT
  {
    ParseU64(Last(k, '/'))
  }

  /** The world of a key: its second segment, when the first one is `world`. */
  function WorldOf(k: string): (r: Option<WorldKey>)
    ensures r.Some? ==> '/' !in r.value
  {
    match After(k, '/')
    case None => None
    case Some(rest) => if UpTo(k, '/') == "world" then Some(UpTo(rest, '/')) else None
  }

  /** No body or log marker hides inside the world name. */
  ghost predicate Plain(w: WorldKey) {
    !Occurs(ATOMS, w + "/") && !Occurs(LOG, w + "/")
  }

  lemma SlashFreeIsPlain(w: WorldKey)
    requires '/' !in w
    ensures Plain(w)
  {
    NoMarker(w, ATOMS);
    NoMarker(w, LOG);
  }

  lemma NoMarker(w: WorldKey, m: string)
    requires '/' !in w && |m| >= 2 && m[0] == '/'
    ensures !Occurs(m, w + "/")
  {
    var s := w + "/";
    forall i
      ensures !OccursAt(m, s, i)
    {
      if 0 <= i && i + |m| <= |s| { assert s[i..i + |m|][0] == w[i]; }
    }
  }

  predicate IsMarker(m: string) { m == ATOMS || m == LOG }

  /** A marker cannot start strictly inside `v`'s part of a key when `v` is plain. */
  lemma MarkerPosition(w: string, m: string, x: string, v: string, n: string, y: string)
    requires IsMarker(m) && IsMarker(n) && Plain(v)
    requires w + m + x == v + n + y
    ensures |w| >= |v|
  {
    if |w| < |v| {
      var s := w + m + x;
      assert s[|v|] == n[0] == '/';
      if |w| + |m| <= |v| + 1 {
        WholeMarker(w, m, x, v + "/");
      } else {
        assert m[|v| - |w|] == s[|v|];
        InnerMarker(m, |v| - |w|);
      }
    }
  }

  lemma WholeMarker(w: string, m: string, x: string, front: string)
    requires front <= w + m + x && |w| + |m| <= |front|
    ensures Occurs(m, front)
  {
    assert front[|w|..|w| + |m|] == (w + m + x)[|w|..|w| + |m|] == m;
    assert OccursAt(m, front, |w|);
  }

  lemma InnerMarker(m: string, j: int)
    requires IsMarker(m) && 1 <= j < |m| - 1
    ensures m[j] != '/'
  {
  }

  lemma SameFront(w: string, x: string, v: string, y: string)
    requires |w| == |v| && w + x == v + y
    ensures w == v && x == y
  {
    assert (w + x)[..|w|] == w && (v + y)[..|v|] == v;
    assert (w + x)[|w|..] == x && (v + y)[|v|..] == y;
  }

  lemma SameMarker(m: string, x: string, n: string, y: string)
    requires IsMarker(m) && IsMarker(n) && m + x == n + y
    ensures m == n && x == y
  {
    assert (m + x)[1] == m[1] && (n + y)[1] == n[1];
    assert m == n;
    SameFront(m, x, n, y);
  }

  /** Two marked keys with the same text have the same world, the same marker, the same rest. */
  lemma Separate(w: WorldKey, m: string, x: string, v: WorldKey, n: string, y: string)
    requires IsMarker(m) && IsMarker(n) && Plain(w) && Plain(v)
    requires WORLD + w + m + x == WORLD + v + n + y
    ensures w == v && m == n && x == y
  {
    hide Plain, IsMarker;
    Regroup(WORLD, w, m, x);
    Regroup(WORLD, v, n, y);
    SameFront(WORLD, w + (m + x), WORLD, v + (n + y));
    Ungroup(w, m, x);
    Ungroup(v, n, y);
    MarkerPosition(w, m, x, v, n, y);
    MarkerPosition(v, n, y, w, m, x);
    SameFront(w, m + x, v, n + y);
    SameMarker(m, x, n, y);
  }

  lemma Regroup(a: string, w: string, m: string, x: string)
    ensures a + w + m + x == a + (w + (m + x))
  {
  }

  lemma Ungroup(w: string, m: string, x: string)
    ensures w + m + x == w + (m + x)
  {
  }

  lemma AtomKeyInjective(w: WorldKey, id: AtomId, v: WorldKey, id': AtomId)
    requires Plain(w) && Plain(v) && AtomKey(w, id) == AtomKey(v, id')
    ensures w == v && id == id'
  {
    Separate(w, ATOMS, id, v, ATOMS, id');
  }

  lemma LogKeyInjective(w: WorldKey, m: nat, v: WorldKey, n: nat)
    requires Plain(w) && Plain(v) && m < U64_LIMIT && n < U64_LIMIT
    requires LogKey(w, m) == LogKey(v, n)
    ensures w == v && m == n
  {
    Separate(w, LOG, Padded(m, SEQ_WIDTH), v, LOG, Padded(n, SEQ_WIDTH));
    ParsePadded(m);
    ParsePadded(n);
  }

  lemma IndexKeyInjective(id: AtomId, id': AtomId)
    requires IndexKey(id) == IndexKey(id')
    ensures id == id'
  {
    assert IndexKey(id)[|INDEX|..] == id && IndexKey(id')[|INDEX|..] == id';
  }

  /** A log key lies below the prefix of its own world and of no other plain world. */
  lemma LogKeyUnderPrefix(w: WorldKey, n: nat, v: WorldKey)
    requires Plain(w) && Plain(v)
    ensures Below(LogPrefix(v), LogKey(w, n)) <==> v == w
  {
    var k := LogKey(w, n);
    if Below(LogPrefix(v), k) {
      assert k == LogPrefix(v) + k[|LogPrefix(v)|..];
      Separate(w, LOG, Padded(n, SEQ_WIDTH), v, LOG, k[|LogPrefix(v)|..]);
    }
  }

  /** A body key lies below no log prefix. */
  lemma AtomKeyNotUnderLog(w: WorldKey, id: AtomId, v: WorldKey)
    requires Plain(w) && Plain(v)
    ensures !Below(LogPrefix(v), AtomKey(w, id))
  {
    var k := AtomKey(w, id);
    if Below(LogPrefix(v), k) {
      assert k == LogPrefix(v) + k[|LogPrefix(v)|..];
      Separate(w, ATOMS, id, v, LOG, k[|LogPrefix(v)|..]);
    }
  }

  lemma IndexKeyApart(id: AtomId, v: WorldKey)
    ensures !Below(WORLD, IndexKey(id)) && !Below(LogPrefix(v), IndexKey(id))
  {
    assert IndexKey(id)[0] == 'i';
    assert WORLD[0] == 'w' && LogPrefix(v)[0] == 'w';
  }

  lemma LogKeyNotIndex(w: WorldKey, k: string)
    requires Below(LogPrefix(w), k)
    ensures !Below(INDEX, k)
  {
    assert k[0] == LogPrefix(w)[0] == 'w';
  }

  lemma KeysDistinct(w: WorldKey, id: AtomId, v: WorldKey, n: nat, id': AtomId)
    requires Plain(w) && Plain(v)
    ensures AtomKey(w, id) != LogKey(v, n)
    ensures AtomKey(w, id) != IndexKey(id') && LogKey(v, n) != IndexKey(id')
  {
    LogKeyUnderPrefix(v, n, v);
    AtomKeyNotUnderLog(w, id, v);
    assert IndexKey(id')[0] == 'i' && AtomKey(w, id)[0] == 'w' && LogKey(v, n)[0] == 'w';
  }

  /** The key codec round trip: the sequence number comes back from the key. */
  lemma SeqOfLogKey(w: WorldKey, n: nat)
    requires n < U64_LIMIT
    ensures SeqOf(LogKey(w, n)) == Some(n)
  {
    var p := Padded(n, SEQ_WIDTH);
    assert LOG == "/log" + ['/'];
    assert LogKey(w, n) == (WORLD + w + "/log") + ['/'] + p;
    LastOf(WORLD + w + "/log", '/', p);
    ParsePadded(n);
  }

  /** Within a world, key order is append order. */
  lemma LogKeyOrder(w: WorldKey, m: nat, n: nat)
    requires m < U64_LIMIT && n < U64_LIMIT
    ensures LexLess(LogKey(w, m), LogKey(w, n)) <==> m < n
  {
    LexCommonPrefix(LogPrefix(w), Padded(m, SEQ_WIDTH), Padded(n, SEQ_WIDTH));
    PaddedOrder(m, n);
  }

  lemma WorldOfRest(rest: string)
    ensures '/' in rest ==> WorldOf(WORLD + rest) == Some(UpTo(rest, '/'))
  {
    assert WORLD + rest == "world" + ['/'] + rest;
    UpToFirst("world", '/', rest);
  }

  lemma UpToMarked(w: string, tail: string)
    requires tail != [] && tail[0] == '/'
    ensures UpTo(w + tail, '/') == UpTo(w, '/')
  {
    hide UpTo, After;
    if '/' in w {
      var first := UpTo(w, '/');
      var rest := After(w, '/').value;
      assert w + tail == first + ['/'] + (rest + tail);
      UpToFirst(first, '/', rest + tail);
    } else {
      assert tail == ['/'] + tail[1..];
      assert w + tail == w + ['/'] + tail[1..];
      UpToFirst(w, '/', tail[1..]);
    }
  }

  /** The world read back from a body or log key is only the part before its first slash. */
  lemma WorldOfMarked(w: WorldKey, m: string, x: string)
    requires IsMarker(m)
    ensures WorldOf(WORLD + w + m + x) == Some(UpTo(w, '/'))
  {
    var tail := m + x;
    assert m[0] == '/';
    Regroup(WORLD, w, m, x);
    assert (w + tail)[|w|] == '/';
    UpToMarked(w, tail);
    WorldOfRest(w + tail);
  }

  /** World discovery gives a world its own name back exactly when the name has no slash. */
  lemma WorldOfLogKey(w: WorldKey, n: nat)
    ensures WorldOf(LogKey(w, n)) == Some(w) <==> '/' !in w
  {
    WorldOfMarked(w, LOG, Padded(n, SEQ_WIDTH));
  }
}
