/** Strings as the storage layer uses them: byte order, segments between slashes, decimal numbers. */
module Text {
  import opened Prelude

  /** Lexicographic order, the order of the keys of the underlying ordered map. */
  predicate LexLess(a: string, b: string) {
    if |b| == 0 then false
    else if |a| == 0 then true
    else a[0] < b[0] || (a[0] == b[0] && LexLess(a[1..], b[1..]))
  }

  lemma {:induction false} LexTotal(a: string, b: string)
    ensures LexLess(a, b) || a == b || LexLess(b, a)
  {
    if |a| > 0 && |b| > 0 && a[0] == b[0] {
      LexTotal(a[1..], b[1..]);
      assert a == [a[0]] + a[1..] && b == [b[0]] + b[1..];
    }
  }

  lemma {:induction false} LexAsymmetric(a: string, b: string)
    requires LexLess(a, b)
    ensures a != b && !LexLess(b, a)
  {
    if |a| > 0 && a[0] == b[0] {
      LexAsymmetric(a[1..], b[1..]);
    }
  }

  lemma {:induction false} LexTransitive(a: string, b: string, c: string)
    requires LexLess(a, b) && LexLess(b, c)
    ensures LexLess(a, c)
  {
    if |a| > 0 && a[0] == b[0] && b[0] == c[0] {
      LexTransitive(a[1..], b[1..], c[1..]);
    }
  }

  /** A common prefix does not influence the order. */
  lemma {:induction false} LexCommonPrefix(p: string, a: string, b: string)
    ensures LexLess(p + a, p + b) == LexLess(a, b)
  {
    if p == [] {
      assert p + a == a && p + b == b;
    } else {
      assert (p + a)[1..] == p[1..] + a && (p + b)[1..] == p[1..] + b;
      LexCommonPrefix(p[1..], a, b);
    }
  }

  /** Between blocks of equal length, the first block decides unless the two agree. */
  lemma {:induction false} LexBlocks(x: string, y: string, a: string, b: string)
    requires |x| == |y|
    ensures LexLess(x + a, y + b) <==> LexLess(x, y) || (x == y && LexLess(a, b))
  {
    if x == [] {
      assert x + a == a && y + b == b;
    } else {
      assert (x + a)[1..] == x[1..] + a && (y + b)[1..] == y[1..] + b;
      assert x == [x[0]] + x[1..] && y == [y[0]] + y[1..];
      LexBlocks(x[1..], y[1..], a, b);
    }
  }

  // ---------------------------------------------------------------- segments

  /** The part of `s` before the first `c`, or all of `s`. */
  function UpTo(s: string, c: char): (r: string)
    ensures c !in r && r <= s
    ensures c !in s ==> r == s
    ensures c in s ==> |r| < |s| && s[|r|] == c
  {
    if s == [] || s[0] == c then [] else [s[0]] + UpTo(s[1..], c)
  }

  /** The part after the first `c`, if there is one. */
  function After(s: string, c: char): (r: Option<string>)
    ensures r.Some? <==> c in s
    ensures r.Some? ==> s == UpTo(s, c) + [c] + r.value
  {
    if s == [] then None
    else if s[0] == c then Some(s[1..])
    else After(s[1..], c)
  }

  lemma {:induction false} UpToFirst(a: string, c: char, b: string)
    requires c !in a
    ensures UpTo(a + [c] + b, c) == a
    ensures After(a + [c] + b, c) == Some(b)
  {
    var s := a + [c] + b;
    if a != [] {
      assert s[1..] == a[1..] + [c] + b;
      UpToFirst(a[1..], c, b);
    }
  }

  /** The part after the last `c`, or all of `s`. */
  function Last(s: string, c: char): (r: string)
    ensures c !in r
  {
    if s == [] then []
    else if s[|s| - 1] == c then []
    else Last(s[..|s| - 1], c) + [s[|s| - 1]]
  }

  lemma {:induction false} LastOf(a: string, c: char, b: string)
    requires c !in b
    ensures Last(a + [c] + b, c) == b
  {
    var s := a + [c] + b;
    if b != [] {
      assert s[..|s| - 1] == a + [c] + b[..|b| - 1];
      LastOf(a, c, b[..|b| - 1]);
    }
  }

  predicate EndsWith(s: string, t: string) {
    |t| <= |s| && s[|s| - |t|..] == t
  }

  ghost predicate OccursAt(m: string, s: string, i: int) {
    0 <= i && i + |m| <= |s| && s[i..i + |m|] == m
  }

  ghost predicate Occurs(m: string, s: string) {
    exists i :: OccursAt(m, s, i)
  }

  // ---------------------------------------------------------------- decimals

  const U64_LIMIT: int := 0x1_0000_0000_0000_0000

  predicate IsDigit(c: char) { '0' <= c <= '9' }

  predicate AllDigits(s: string) { forall i :: 0 <= i < |s| ==> IsDigit(s[i]) }

  function DigitOf(c: char): (n: nat)
    requires IsDigit(c)
    ensures n < 10
  {
    c as int - '0' as int
  }

  function CharOf(n: nat): (c: char)
    requires n < 10
    ensures IsDigit(c) && DigitOf(c) == n
  {
    ('0' as int + n) as char
  }

  /** The number a string of decimal digits denotes. */
  function NumberOf(s: string): nat
    requires AllDigits(s)
  {
    if s == [] then 0
    else NumberOf(s[..|s| - 1]) * 10 + DigitOf(s[|s| - 1])
  }

  function Pow10(k: nat): (p: nat)
    ensures p >= 1
  {
    if k == 0 then 1 else 10 * Pow10(k - 1)
  }

  /** `n` in decimal, padded with zeros to exactly `width` digits. */
  function Padded(n: nat, width: nat): (s: string)
    ensures |s| == width && AllDigits(s)
  {
    if width == 0 then [] else Padded(n / 10, width - 1) + [CharOf(n % 10)]
  }

  lemma TenTimes(n: nat, p: nat)
    requires n < 10 * p
    ensures n / 10 < p && (n / 10) * 10 + n % 10 == n
  {
  }

  lemma PaddedStep(n: nat, width: nat)
    requires width > 0
    ensures Padded(n, width) == Padded(n / 10, width - 1) + [CharOf(n % 10)]
    ensures NumberOf(Padded(n, width)) == NumberOf(Padded(n / 10, width - 1)) * 10 + n % 10
  {
    hide AllDigits;
    var front := Padded(n / 10, width - 1);
    var s := Padded(n, width);
    assert s == front + [CharOf(n % 10)];
    assert s[..|s| - 1] == front && s[|s| - 1] == CharOf(n % 10);
  }

  lemma {:induction false} NumberOfPadded(n: nat, width: nat)
    requires n < Pow10(width)
    ensures NumberOf(Padded(n, width)) == n
  {
    hide Padded, NumberOf, AllDigits;
    if width == 0 {
      NothingPadded(n);
    } else {
      TenTimes(n, Pow10(width - 1));
      NumberOfPadded(n / 10, width - 1);
      PaddedStep(n, width);
    }
  }

  lemma NothingPadded(n: nat)
    ensures NumberOf(Padded(n, 0)) == 0
  {
  }

  /** Between digit strings of equal length, byte order is numeric order. */
  lemma {:induction false} DigitsOrder(a: string, b: string)
    requires |a| == |b| && AllDigits(a) && AllDigits(b)
    ensures LexLess(a, b) <==> NumberOf(a) < NumberOf(b)
    ensures a == b <==> NumberOf(a) == NumberOf(b)
  {
    if a != [] {
      var n := |a| - 1;
      assert a == a[..n] + [a[n]] && b == b[..n] + [b[n]];
      DigitsOrder(a[..n], b[..n]);
      LexBlocks(a[..n], b[..n], [a[n]], [b[n]]);
      assert LexLess([a[n]], [b[n]]) <==> a[n] < b[n];
      assert a[n] < b[n] <==> DigitOf(a[n]) < DigitOf(b[n]);
    }
  }

  /** `str::parse::<u64>`: an optional plus sign, then digits, and no overflow. */
  function ParseU64(s: string): (r: Option<nat>)
    ensures r.Some? ==> r.value < U64_LIMIT
  {
    var digits := if s != [] && s[0] == '+' then s[1..] else s;
    if digits == [] || !AllDigits(digits) then None
    else if NumberOf(digits) < U64_LIMIT then Some(NumberOf(digits))
    else None
  }

  /** A number parses from its digits, with any leading zeros and with or without a plus sign, if it fits. */
  lemma ParsedNumber(s: string, n: nat)
    ensures ParseU64(s) == Some(n) <==>
              n < 0x1_0000_0000_0000_0000
              && exists d :: (s == d || s == "+" + d) && d != "" && AllDigits(d) && NumberOf(d) == n
  {
    hide NumberOf;
    if d :| (s == d || s == "+" + d) && d != "" && AllDigits(d) && NumberOf(d) == n {
      if s == "+" + d { assert s[1..] == d; } else { assert IsDigit(d[0]); }
    }
    if ParseU64(s) == Some(n) && s[0] == '+' { assert s == "+" + s[1..]; }
  }

  const SEQ_WIDTH: nat := 20

  lemma Pow10Width()
    ensures Pow10(SEQ_WIDTH) == 100_000_000_000_000_000_000
    ensures U64_LIMIT <= Pow10(SEQ_WIDTH)
  {
    assert Pow10(5) == 100_000;
    assert Pow10(10) == 10_000_000_000;
    assert Pow10(15) == 1_000_000_000_000_000;
  }

  /** Every u64 survives being written with twenty digits and parsed again. */
  lemma ParsePadded(n: nat)
    requires n < U64_LIMIT
    ensures ParseU64(Padded(n, SEQ_WIDTH)) == Some(n)
  {
    Pow10Width();
    NumberOfPadded(n, SEQ_WIDTH);
    var s := Padded(n, SEQ_WIDTH);
    assert IsDigit(s[0]);
  }

  /** For every pair of u64 values, padded byte order is numeric order. */
  lemma PaddedOrder(m: nat, n: nat)
    requires m < U64_LIMIT && n < U64_LIMIT
    ensures LexLess(Padded(m, SEQ_WIDTH), Padded(n, SEQ_WIDTH)) <==> m < n
  {
    Pow10Width();
    NumberOfPadded(m, SEQ_WIDTH);
    NumberOfPadded(n, SEQ_WIDTH);
    DigitsOrder(Padded(m, SEQ_WIDTH), Padded(n, SEQ_WIDTH));
  }
}
