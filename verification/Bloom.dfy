/** The Bloom filter that a peer offers in delta sync, down to its bits. */
module Bloom {
  import opened Prelude
  import opened Text
  import opened Atoms

  newtype U64 = x: int | 0 <= x < 0x1_0000_0000_0000_0000

  /** Two 64-bit hashes of an id, as arbitrary functions. */
  datatype Hashes = Hashes(h1: AtomId -> U64, h2: AtomId -> U64)

  const U32_LIMIT: int := 0x1_0000_0000

  /** The `i`-th probe: double hashing with wrapping 64-bit arithmetic, then reduction modulo `m`. */
  function Probe(hs: Hashes, m: nat, id: AtomId, i: nat): (j: nat)
    requires 0 < m < U32_LIMIT && i < U32_LIMIT
    ensures j < m
  {
    ((hs.h1(id) as int + (i * (hs.h2(id) as int)) % U64_LIMIT) % U64_LIMIT) % m
  }

  /** Adding with wrap-around leaves the sum less some multiple of 2^64. */
  lemma WrappedSum(a: nat, b: nat) returns (u: nat, wraps: nat)
    ensures u == (a + b % U64_LIMIT) % U64_LIMIT && u < 0x1_0000_0000_0000_0000
    ensures u + wraps * 0x1_0000_0000_0000_0000 == a + b
  {
    var sum := a + b % U64_LIMIT;
    u, wraps := sum % U64_LIMIT, b / U64_LIMIT + sum / U64_LIMIT;
  }

  /** A probe is `h1 + i * h2`, brought below 2^64 by taking multiples of it away, modulo the number of bits. */
  lemma ProbeMeaning(hs: Hashes, m: nat, id: AtomId, i: nat) returns (u: nat, wraps: nat)
    requires 0 < m < U32_LIMIT && i < U32_LIMIT
    ensures Probe(hs, m, id, i) == u % m && u < 0x1_0000_0000_0000_0000
    ensures u + wraps * 0x1_0000_0000_0000_0000 == hs.h1(id) as int + i * (hs.h2(id) as int)
  {
    u, wraps := WrappedSum(hs.h1(id) as int, i * (hs.h2(id) as int));
  }

  function Mask(bit: nat): bv8
    requires bit < 8
  {
    (1 as bv8) << bit
  }

  predicate BitAt(bits: seq<bv8>, j: nat)
    requires j < 8 * |bits|
  {
    bits[j / 8] & Mask(j % 8) != 0
  }

  lemma MasksApart(x: bv8, b: nat, c: nat)
    requires b < 8 && c < 8
    ensures (x | Mask(b)) & Mask(b) != 0
    ensures b != c ==> (x | Mask(b)) & Mask(c) == x & Mask(c)
  {
    assert Mask(0) == 1 && Mask(1) == 2 && Mask(2) == 4 && Mask(3) == 8;
    assert Mask(4) == 16 && Mask(5) == 32 && Mask(6) == 64 && Mask(7) == 128;
  }

  lemma ByteFromBits(x: bv8, y: bv8)
    requires forall b: nat :: b < 8 ==> (x & Mask(b) != 0 <==> y & Mask(b) != 0)
    ensures x == y
  {
    assert Mask(0) == 1 && Mask(1) == 2 && Mask(2) == 4 && Mask(3) == 8;
    assert Mask(4) == 16 && Mask(5) == 32 && Mask(6) == 64 && Mask(7) == 128;
    assert x & Mask(0) != 0 <==> y & Mask(0) != 0;
    assert x & Mask(1) != 0 <==> y & Mask(1) != 0;
    assert x & Mask(2) != 0 <==> y & Mask(2) != 0;
    assert x & Mask(3) != 0 <==> y & Mask(3) != 0;
    assert x & Mask(4) != 0 <==> y & Mask(4) != 0;
    assert x & Mask(5) != 0 <==> y & Mask(5) != 0;
    assert x & Mask(6) != 0 <==> y & Mask(6) != 0;
    assert x & Mask(7) != 0 <==> y & Mask(7) != 0;
  }

  /** Setting one bit sets that bit and no other. */
  lemma SetBit(bits: seq<bv8>, j: nat)
    requires j < 8 * |bits|
    ensures var bits' := bits[j / 8 := bits[j / 8] | Mask(j % 8)];
            forall q: nat :: q < 8 * |bits| ==> (BitAt(bits', q) <==> BitAt(bits, q) || q == j)
  {
    hide Mask;
    forall q: nat | q < 8 * |bits|
      ensures BitAt(bits[j / 8 := bits[j / 8] | Mask(j % 8)], q) <==> BitAt(bits, q) || q == j
    {
      if q / 8 == j / 8 { MasksApart(bits[j / 8], j % 8, q % 8); }
    }
  }

  /** Sizes as the constructor leaves them: at least 256 bits, at least one probe. */
  ghost predicate Sized(m: nat, k: nat, bytes: nat) {
    256 <= m < U32_LIMIT && 1 <= k < U32_LIMIT && bytes == (m + 7) / 8
  }

  /** Bit `j` is one of the first `n` probes of `id`. */
  ghost predicate Hits(hs: Hashes, m: nat, n: nat, id: AtomId, j: nat)
    requires 0 < m < U32_LIMIT && n <= U32_LIMIT
  {
    exists i: nat :: i < n && Probe(hs, m, id, i) == j
  }

  ghost predicate Contained(hs: Hashes, m: nat, k: nat, bits: seq<bv8>, id: AtomId)
    requires Sized(m, k, |bits|)
  {
    forall i: nat :: i < k ==> BitAt(bits, Probe(hs, m, id, i))
  }

  /** Every probe of `id` is also a probe of some inserted id. */
  ghost predicate Covered(hs: Hashes, m: nat, k: nat, ids: seq<AtomId>, id: AtomId)
    requires 0 < m < U32_LIMIT && k < U32_LIMIT
  {
    forall i: nat :: i < k ==> CoveredAt(hs, m, k, ids, Probe(hs, m, id, i))
  }

  ghost predicate CoveredAt(hs: Hashes, m: nat, k: nat, ids: seq<AtomId>, j: nat)
    requires 0 < m < U32_LIMIT && k < U32_LIMIT
  {
    exists x :: 0 <= x < |ids| && Hits(hs, m, k, ids[x], j)
  }

  /** The bits are exactly the probes of the ids. */
  ghost predicate Filled(hs: Hashes, m: nat, k: nat, bits: seq<bv8>, ids: seq<AtomId>)
    requires Sized(m, k, |bits|)
  {
    forall j: nat :: j < 8 * |bits| ==>
      (BitAt(bits, j) <==> CoveredAt(hs, m, k, ids, j))
  }

  /** The ids that the filter does not contain, in the order asked. */
  ghost function MissingOf(hs: Hashes, m: nat, k: nat, bits: seq<bv8>, ids: seq<AtomId>): seq<AtomId>
    requires Sized(m, k, |bits|)
  {
    Keep((id: AtomId) => !Contained(hs, m, k, bits, id), ids)
  }

  lemma MissingMore(hs: Hashes, m: nat, k: nat, bits: seq<bv8>, ids: seq<AtomId>, x: nat)
    requires Sized(m, k, |bits|) && x < |ids|
    ensures MissingOf(hs, m, k, bits, ids[..x + 1])
         == MissingOf(hs, m, k, bits, ids[..x]) + (if Contained(hs, m, k, bits, ids[x]) then [] else [ids[x]])
  {
    hide Contained;
    assert ids[..x + 1] == ids[..x] + [ids[x]];
    KeepSnoc((id: AtomId) => !Contained(hs, m, k, bits, id), ids[..x], ids[x]);
  }

  /** The first `n` probes of one id have been set, and nothing else has changed. */
  ghost predicate Grown(hs: Hashes, m: nat, n: nat, before: seq<bv8>, after: seq<bv8>, id: AtomId)
    requires 0 < m < U32_LIMIT && n <= U32_LIMIT && |after| == |before|
  {
    forall j: nat :: j < 8 * |before| ==> (BitAt(after, j) <==> BitAt(before, j) || Hits(hs, m, n, id, j))
  }

  lemma NothingGrown(hs: Hashes, m: nat, bits: seq<bv8>, id: AtomId)
    requires 0 < m < U32_LIMIT
    ensures Grown(hs, m, 0, bits, bits, id)
  {
    hide BitAt, Probe;
  }

  lemma GrownMore(hs: Hashes, m: nat, n: nat, before: seq<bv8>, bits: seq<bv8>, id: AtomId)
    requires 0 < m < U32_LIMIT && n < U32_LIMIT && |bits| == |before| && m <= 8 * |bits|
    requires Grown(hs, m, n, before, bits, id)
    ensures var j := Probe(hs, m, id, n);
            Grown(hs, m, n + 1, before, bits[j / 8 := bits[j / 8] | Mask(j % 8)], id)
  {
    hide BitAt, Mask, Probe, Hits;
    SetBit(bits, Probe(hs, m, id, n));
    HitsMore(hs, m, n, id);
  }

  class BloomFilter {
    const hs: Hashes
    const m: nat
    const k: nat
    const bits: array<bv8>

    ghost predicate Valid()
      reads this
    {
      Sized(m, k, bits.Length)
    }

    constructor FromIds(hs: Hashes, ids: seq<AtomId>, m: nat, k: nat)
      requires Sized(m, k, (m + 7) / 8)
      ensures Valid() && fresh(bits) && this.hs == hs && this.m == m && this.k == k
      ensures Filled(hs, m, k, bits[..], ids)
    {
      this.hs, this.m, this.k := hs, m, k;
      bits := new bv8[(m + 7) / 8](_ => 0);
      new;
      NothingSet(bits[..]);
      for x := 0 to |ids|
        invariant Filled(hs, m, k, bits[..], ids[..x])
      {
        ghost var before := bits[..];
        Set(ids[x]);
        FilledMore(hs, m, k, before, bits[..], ids[..x], ids[x]);
        assert ids[..x + 1] == ids[..x] + [ids[x]];
      }
      assert ids[..|ids|] == ids;
    }

    method Set(id: AtomId)
      requires Valid()
      modifies bits
      ensures forall j: nat :: j < 8 * bits.Length ==>
                (BitAt(bits[..], j) <==> BitAt(old(bits[..]), j) || Hits(hs, m, k, id, j))
    {
      NothingGrown(hs, m, bits[..], id);
      for i := 0 to k
        invariant Grown(hs, m, i, old(bits[..]), bits[..], id)
      {
        hide BitAt, Mask, Probe, Hits, Grown;
        var idx := Probe(hs, m, id, i);
        var byte := idx / 8;
        var bit := idx % 8;
        GrownMore(hs, m, i, old(bits[..]), bits[..], id);
        ghost var before := bits[..];
        bits[byte] := bits[byte] | Mask(bit);
        assert bits[..] == before[byte := before[byte] | Mask(bit)];
      }
    }

    method Contains(id: AtomId) returns (r: bool)
      requires Valid()
      ensures r <==> Contained(hs, m, k, bits[..], id)
    {
      for i := 0 to k
        invariant forall j: nat :: j < i ==> BitAt(bits[..], Probe(hs, m, id, j))
      {
        var idx := Probe(hs, m, id, i);
        if bits[idx / 8] & Mask(idx % 8) == 0 {
          assert !BitAt(bits[..], idx);
          return false;
        }
      }
      return true;
    }

    method Missing(ids: seq<AtomId>) returns (r: seq<AtomId>)
      requires Valid()
      ensures r == MissingOf(hs, m, k, bits[..], ids)
    {
      r := [];
      for x := 0 to |ids|
        invariant r == MissingOf(hs, m, k, bits[..], ids[..x])
      {
        var found := Contains(ids[x]);
        MissingMore(hs, m, k, bits[..], ids, x);
        if !found { r := r + [ids[x]]; }
      }
      assert ids[..|ids|] == ids;
    }
  }

  lemma NothingSet(bits: seq<bv8>)
    requires forall b :: 0 <= b < |bits| ==> bits[b] == 0
    ensures forall j: nat :: j < 8 * |bits| ==> !BitAt(bits, j)
  {
    forall j: nat | j < 8 * |bits|
      ensures !BitAt(bits, j)
    {
      assert bits[j / 8] == 0;
    }
  }

  lemma HitsMore(hs: Hashes, m: nat, n: nat, id: AtomId)
    requires 0 < m < U32_LIMIT && n < U32_LIMIT
    ensures forall j: nat :: Hits(hs, m, n + 1, id, j) <==> Hits(hs, m, n, id, j) || j == Probe(hs, m, id, n)
  {
    hide Probe;
  }

  lemma CoveredMore(hs: Hashes, m: nat, k: nat, ids: seq<AtomId>, id: AtomId, j: nat)
    requires 0 < m < U32_LIMIT && k < U32_LIMIT
    ensures CoveredAt(hs, m, k, ids + [id], j) <==> CoveredAt(hs, m, k, ids, j) || Hits(hs, m, k, id, j)
  {
    hide Hits;
    var all := ids + [id];
    assert all[|ids|] == id && forall y :: 0 <= y < |ids| ==> all[y] == ids[y];
    if CoveredAt(hs, m, k, ids, j) {
      var y :| 0 <= y < |ids| && Hits(hs, m, k, ids[y], j);
      assert Hits(hs, m, k, all[y], j);
    }
    if Hits(hs, m, k, id, j) { assert Hits(hs, m, k, all[|ids|], j); }
  }

  lemma FilledMore(hs: Hashes, m: nat, k: nat, before: seq<bv8>, after: seq<bv8>, ids: seq<AtomId>, id: AtomId)
    requires |before| == |after| && Sized(m, k, |before|)
    requires Filled(hs, m, k, before, ids)
    requires forall j: nat :: j < 8 * |before| ==>
               (BitAt(after, j) <==> BitAt(before, j) || Hits(hs, m, k, id, j))
    ensures Filled(hs, m, k, after, ids + [id])
  {
    hide BitAt, Hits, CoveredAt;
    forall j: nat | j < 8 * |after|
      ensures BitAt(after, j) <==> CoveredAt(hs, m, k, ids + [id], j)
    {
      CoveredMore(hs, m, k, ids, id, j);
    }
  }

  // ---------------------------------------------------------------- what a filter promises

  /** No false negatives, and exactly the false positives whose every probe is some inserted id's. */
  lemma ContainedExactly(hs: Hashes, m: nat, k: nat, bits: seq<bv8>, ids: seq<AtomId>, id: AtomId)
    requires Sized(m, k, |bits|) && Filled(hs, m, k, bits, ids)
    ensures id in ids ==> Contained(hs, m, k, bits, id)
    ensures Contained(hs, m, k, bits, id) <==> Covered(hs, m, k, ids, id)
  {
    hide BitAt, Probe, Hits;
    forall i: nat | i < k
      ensures BitAt(bits, Probe(hs, m, id, i)) <==> CoveredAt(hs, m, k, ids, Probe(hs, m, id, i))
      ensures id in ids ==> CoveredAt(hs, m, k, ids, Probe(hs, m, id, i))
    {
      if id in ids {
        var x :| 0 <= x < |ids| && ids[x] == id;
        OwnProbe(hs, m, k, id, i);
      }
    }
  }

  lemma OwnProbe(hs: Hashes, m: nat, k: nat, id: AtomId, i: nat)
    requires 0 < m < U32_LIMIT && i < k < U32_LIMIT
    ensures Hits(hs, m, k, id, Probe(hs, m, id, i))
  {
  }

  /** An id reported missing was not inserted, and an id not reported has all its probes set. */
  lemma MissingIsDisjoint(hs: Hashes, m: nat, k: nat, bits: seq<bv8>, ids: seq<AtomId>, asked: seq<AtomId>)
    requires Sized(m, k, |bits|) && Filled(hs, m, k, bits, ids)
    ensures var missing := MissingOf(hs, m, k, bits, asked);
            && (forall id :: id in missing ==> id in asked && id !in ids)
            && (forall id :: id in asked && id !in missing ==> Contained(hs, m, k, bits, id))
  {
    hide Contained, Filled;
    forall id | id in ids
      ensures Contained(hs, m, k, bits, id)
    {
      ContainedExactly(hs, m, k, bits, ids, id);
    }
  }

  /** The filter depends only on the set of ids: order and repetition leave the same bytes. */
  lemma SameIdsSameBits(
    hs: Hashes, m: nat, k: nat, x: seq<bv8>, y: seq<bv8>, ids: seq<AtomId>, ids': seq<AtomId>)
    requires Sized(m, k, |x|) && Sized(m, k, |y|)
    requires Filled(hs, m, k, x, ids) && Filled(hs, m, k, y, ids')
    requires forall id :: id in ids <==> id in ids'
    ensures x == y
  {
    hide Mask, Hits, BitAt;
    forall j: nat | j < 8 * |x|
      ensures BitAt(x, j) <==> BitAt(y, j)
    {
      SetBitSource(hs, m, k, x, ids, ids', j);
      SetBitSource(hs, m, k, y, ids', ids, j);
    }
    SameBitsSameBytes(x, y);
  }

  lemma SetBitSource(hs: Hashes, m: nat, k: nat, x: seq<bv8>, ids: seq<AtomId>, ids': seq<AtomId>, j: nat)
    requires Sized(m, k, |x|) && Filled(hs, m, k, x, ids) && j < 8 * |x|
    requires forall id :: id in ids ==> id in ids'
    ensures BitAt(x, j) ==> CoveredAt(hs, m, k, ids', j)
  {
    hide Mask, Hits, BitAt;
    if BitAt(x, j) {
      var p :| 0 <= p < |ids| && Hits(hs, m, k, ids[p], j);
      assert ids[p] in ids';
    }
  }

  lemma SameBitsSameBytes(x: seq<bv8>, y: seq<bv8>)
    requires |x| == |y| && forall j: nat :: j < 8 * |x| ==> (BitAt(x, j) <==> BitAt(y, j))
    ensures x == y
  {
    hide Mask;
    forall b | 0 <= b < |x|
      ensures x[b] == y[b]
    {
      forall c: nat | c < 8
        ensures x[b] & Mask(c) != 0 <==> y[b] & Mask(c) != 0
      {
        assert (8 * b + c) / 8 == b && (8 * b + c) % 8 == c;
        assert BitAt(x, 8 * b + c) <==> BitAt(y, 8 * b + c);
      }
      ByteFromBits(x[b], y[b]);
    }
  }
}
