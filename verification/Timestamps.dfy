/**
 Timestamps as text and as time. Storage compares them as strings, the reflex index as whole epoch
 seconds. For UTC timestamps of one shape the two agree; section 5.1 of RFC 3339 makes that claim.
 With an optional fraction of a second they part, and the lemmas say exactly where.
 */
module Timestamps {
  import opened Prelude
  import opened Text

  // ---------------------------------------------------------------- calendar

  datatype Civil = Civil(year: nat, month: nat, day: nat, hour: nat, minute: nat, second: nat)

  predicate Leap(y: nat) { y % 4 == 0 && (y % 100 != 0 || y % 400 == 0) }

  function DaysInYear(y: nat): nat { if Leap(y) then 366 else 365 }

  function DaysInMonth(y: nat, m: nat): nat
    requires 1 <= m <= 12
  {
    if m == 2 then (if Leap(y) then 29 else 28)
    else if m == 4 || m == 6 || m == 9 || m == 11 then 30
    else 31
  }

  predicate Valid(c: Civil) {
    1 <= c.month <= 12 && 1 <= c.day <= DaysInMonth(c.year, c.month)
    && c.hour < 24 && c.minute < 60 && c.second < 60
  }

  function DaysBeforeYear(y: nat): nat {
    if y == 0 then 0 else DaysBeforeYear(y - 1) + DaysInYear(y - 1)
  }

  function DaysBeforeMonth(y: nat, m: nat): nat
    requires 1 <= m <= 13
  {
    if m == 1 then 0 else DaysBeforeMonth(y, m - 1) + DaysInMonth(y, m - 1)
  }

  function DayNumber(c: Civil): nat
    requires Valid(c)
  {
    DaysBeforeYear(c.year) + DaysBeforeMonth(c.year, c.month) + (c.day - 1)
  }

  function SecondOfDay(c: Civil): nat { c.hour * 3600 + c.minute * 60 + c.second }

  /** Seconds since the start of 1970, negative before. */
  function Epoch(c: Civil): int
    requires Valid(c)
  {
    (DayNumber(c) - DaysBeforeYear(1970)) * 86400 + SecondOfDay(c)
  }

  lemma {:induction false} YearsAscend(x: nat, y: nat)
    requires x < y
    ensures DaysBeforeYear(x) + DaysInYear(x) <= DaysBeforeYear(y)
  {
    if x + 1 < y { YearsAscend(x, y - 1); }
  }

  lemma {:induction false} MonthsAscend(y: nat, m: nat, n: nat)
    requires 1 <= m < n <= 13
    ensures DaysBeforeMonth(y, m) + DaysInMonth(y, m) <= DaysBeforeMonth(y, n)
  {
    if m + 1 < n { MonthsAscend(y, m, n - 1); }
  }

  lemma YearIsItsMonths(y: nat)
    ensures DaysBeforeMonth(y, 13) == DaysInYear(y)
  {
    var february := DaysInMonth(y, 2);
    assert DaysBeforeMonth(y, 2) == 31;
    assert DaysBeforeMonth(y, 3) == 31 + february;
    assert DaysBeforeMonth(y, 4) == 62 + february;
    assert DaysBeforeMonth(y, 5) == 92 + february;
    assert DaysBeforeMonth(y, 6) == 123 + february;
    assert DaysBeforeMonth(y, 7) == 153 + february;
    assert DaysBeforeMonth(y, 8) == 184 + february;
    assert DaysBeforeMonth(y, 9) == 215 + february;
    assert DaysBeforeMonth(y, 10) == 245 + february;
    assert DaysBeforeMonth(y, 11) == 276 + february;
    assert DaysBeforeMonth(y, 12) == 306 + february;
  }

  predicate Earlier(a: Civil, b: Civil) {
    a.year < b.year || (a.year == b.year &&
    (a.month < b.month || (a.month == b.month &&
    (a.day < b.day || (a.day == b.day &&
    (a.hour < b.hour || (a.hour == b.hour &&
    (a.minute < b.minute || (a.minute == b.minute && a.second < b.second)))))))))
  }

  lemma DayOrder(a: Civil, b: Civil)
    requires Valid(a) && Valid(b)
    requires a.year < b.year || (a.year == b.year && (a.month < b.month || (a.month == b.month && a.day < b.day)))
    ensures DayNumber(a) < DayNumber(b)
  {
    if a.year < b.year {
      YearsAscend(a.year, b.year);
      YearIsItsMonths(a.year);
      MonthsAscend(a.year, a.month, 13);
    } else if a.month < b.month {
      MonthsAscend(a.year, a.month, b.month);
    }
  }

  /** Calendar order is the order of epoch seconds. */
  lemma EarlierIsLess(a: Civil, b: Civil)
    requires Valid(a) && Valid(b) && Earlier(a, b)
    ensures Epoch(a) < Epoch(b)
  {
    hide DayNumber;
    if a.year == b.year && a.month == b.month && a.day == b.day {
      assert DayNumber(a) == DayNumber(b) by { SameDay(a, b); }
    } else {
      DayOrder(a, b);
      assert DayNumber(a) * 86400 + 86400 <= DayNumber(b) * 86400;
    }
  }

  lemma SameDay(a: Civil, b: Civil)
    requires Valid(a) && Valid(b) && a.year == b.year && a.month == b.month && a.day == b.day
    ensures DayNumber(a) == DayNumber(b)
  {
  }

  lemma EpochOrder(a: Civil, b: Civil)
    requires Valid(a) && Valid(b)
    ensures Epoch(a) < Epoch(b) <==> Earlier(a, b)
    ensures Epoch(a) == Epoch(b) <==> a == b
  {
    hide Epoch;
    if Earlier(a, b) { EarlierIsLess(a, b); }
    if Earlier(b, a) { EarlierIsLess(b, a); }
    assert Earlier(a, b) || Earlier(b, a) || a == b;
  }

  // ---------------------------------------------------------------- text

  const BASE: nat := 19

  /** The separators of `YYYY-MM-DDThh:mm:ss` and digits everywhere else. */
  predicate BaseShape(s: string) {
    && |s| == BASE
    && AllDigits(s[..4]) && s[4] == '-' && AllDigits(s[5..7]) && s[7] == '-' && AllDigits(s[8..10]) && s[10] == 'T'
    && AllDigits(s[11..13]) && s[13] == ':' && AllDigits(s[14..16]) && s[16] == ':' && AllDigits(s[17..19])
  }

  function FieldsOf(s: string): Civil
    requires BaseShape(s)
  {
    Civil(NumberOf(s[..4]), NumberOf(s[5..7]), NumberOf(s[8..10]),
          NumberOf(s[11..13]), NumberOf(s[14..16]), NumberOf(s[17..19]))
  }

  /** The rest of a UTC timestamp: `Z`, or a fraction of a second and `Z`. */
  predicate TailShape(t: string) {
    t == "Z" || (|t| >= 3 && t[0] == '.' && AllDigits(t[1..|t| - 1]) && t[|t| - 1] == 'Z')
  }

  /** A UTC timestamp with or without a fraction, and its calendar fields. */
  function Parse(s: string): (r: Option<Civil>)
    ensures r.Some? ==> Valid(r.value)
  {
    if |s| > BASE && BaseShape(s[..BASE]) && TailShape(s[BASE..]) && Valid(FieldsOf(s[..BASE]))
    then Some(FieldsOf(s[..BASE]))
    else None
  }

  /** Whole epoch seconds, the fraction dropped. */
  function EpochOf(s: string): Option<int> {
    match Parse(s)
    case None => None
    case Some(c) => Some(Epoch(c))
  }

  lemma FieldStep(x: string, y: string, sep: char, a: string, b: string)
    requires |x| == |y| && AllDigits(x) && AllDigits(y)
    ensures LexLess(x + ([sep] + a), y + ([sep] + b)) <==>
              NumberOf(x) < NumberOf(y) || (NumberOf(x) == NumberOf(y) && LexLess(a, b))
    ensures x + ([sep] + a) == y + ([sep] + b) <==> NumberOf(x) == NumberOf(y) && a == b
  {
    LexBlocks(x, y, [sep] + a, [sep] + b);
    DigitsOrder(x, y);
    LexCommonPrefix([sep], a, b);
    assert (x + ([sep] + a))[|x| + 1..] == a && (y + ([sep] + b))[|y| + 1..] == b;
    assert (x + ([sep] + a))[..|x|] == x && (y + ([sep] + b))[..|y|] == y;
  }

  lemma BlockAt(s: string, i: nat, j: nat)
    requires i <= j < |s|
    ensures s[i..] == s[i..j] + ([s[j]] + s[j + 1..])
  {
  }

  /** Two texts that share a separator at `j` compare by the field before it, then by the rest. */
  lemma FieldAt(s: string, t: string, i: nat, j: nat)
    requires |s| == |t| && i <= j < |s| && s[j] == t[j]
    requires AllDigits(s[i..j]) && AllDigits(t[i..j])
    ensures LexLess(s[i..], t[i..]) <==>
              NumberOf(s[i..j]) < NumberOf(t[i..j])
              || (NumberOf(s[i..j]) == NumberOf(t[i..j]) && LexLess(s[j + 1..], t[j + 1..]))
    ensures s[i..] == t[i..] <==> NumberOf(s[i..j]) == NumberOf(t[i..j]) && s[j + 1..] == t[j + 1..]
  {
    hide LexLess, NumberOf, AllDigits;
    BlockAt(s, i, j);
    BlockAt(t, i, j);
    FieldStep(s[i..j], t[i..j], s[j], s[j + 1..], t[j + 1..]);
  }

  /** On the fixed-width part, byte order is calendar order. */
  lemma BaseOrder(s: string, t: string)
    requires BaseShape(s) && BaseShape(t)
    ensures LexLess(s, t) <==> Earlier(FieldsOf(s), FieldsOf(t))
    ensures s == t <==> FieldsOf(s) == FieldsOf(t)
  {
    hide LexLess, NumberOf, AllDigits;
    assert s[0..] == s && t[0..] == t && s[0..4] == s[..4] && t[0..4] == t[..4];
    assert s[17..] == s[17..19] && t[17..] == t[17..19];
    FieldAt(s, t, 0, 4);
    FieldAt(s, t, 5, 7);
    FieldAt(s, t, 8, 10);
    FieldAt(s, t, 11, 13);
    FieldAt(s, t, 14, 16);
    DigitsOrder(s[17..19], t[17..19]);
  }

  /**
   Exactly when comparing two UTC timestamps as strings agrees with comparing their epoch seconds:
   unless they name the same second and their tails are in string order.
   */
  lemma StringOrderIsTimeOrder(s: string, t: string)
    requires Parse(s).Some? && Parse(t).Some?
    ensures (LexLess(s, t) <==> EpochOf(s).value < EpochOf(t).value) <==>
              !(s[..BASE] == t[..BASE] && LexLess(s[BASE..], t[BASE..]))
  {
    hide LexLess, Epoch, NumberOf, Earlier, BaseShape;
    var a, b := s[..BASE], t[..BASE];
    assert s == a + s[BASE..] && t == b + t[BASE..];
    LexBlocks(a, b, s[BASE..], t[BASE..]);
    BaseOrder(a, b);
    EpochOrder(FieldsOf(a), FieldsOf(b));
    if a == b { NotBefore(FieldsOf(a)); }
  }

  lemma NotBefore(c: Civil)
    ensures !Earlier(c, c)
  {
  }

  /** Without fractions the two orders are one, so both `since` tests keep the same atoms. */
  lemma SameShapeAgrees(s: string, t: string)
    requires Parse(s).Some? && Parse(t).Some? && |s| == BASE + 1 && |t| == BASE + 1
    ensures LexLess(s, t) <==> EpochOf(s).value < EpochOf(t).value
    ensures s == t <==> EpochOf(s) == EpochOf(t)
  {
    hide Epoch, NumberOf, BaseShape;
    assert s[BASE..] == "Z" && t[BASE..] == "Z";
    assert s == s[..BASE] + "Z" && t == t[..BASE] + "Z";
    StringOrderIsTimeOrder(s, t);
    BaseOrder(s[..BASE], t[..BASE]);
    EpochOrder(FieldsOf(s[..BASE]), FieldsOf(t[..BASE]));
    LexIrreflexive("Z");
  }

  lemma LexIrreflexive(s: string)
    ensures !LexLess(s, s)
  {
    if LexLess(s, s) { LexAsymmetric(s, s); }
  }

  /**
   With fractions they part: any instant with a fraction sorts, as a string, before the whole
   second it follows, so a storage scan since that second leaves it out while the reflex index,
   which drops the fraction, keeps it.
   */
  lemma FractionSortsEarly(base: string, fraction: string)
    requires Parse(base + "Z").Some? && |base| == BASE && fraction != [] && AllDigits(fraction)
    ensures var late, whole := base + ("." + fraction + "Z"), base + "Z";
            Parse(late).Some? && LexLess(late, whole) && EpochOf(late) == EpochOf(whole)
  {
    hide Epoch, NumberOf, BaseShape;
    var tail := "." + fraction + "Z";
    assert tail[1..|tail| - 1] == fraction && tail[|tail| - 1] == 'Z' && tail[0] == '.';
    assert (base + tail)[..BASE] == base && (base + tail)[BASE..] == tail;
    assert (base + "Z")[..BASE] == base && (base + "Z")[BASE..] == "Z";
    LexCommonPrefix(base, tail, "Z");
    assert LexLess(tail, "Z");
  }

  lemma TwoDigits(a: char, b: char)
    requires IsDigit(a) && IsDigit(b)
    ensures NumberOf([a, b]) == 10 * DigitOf(a) + DigitOf(b)
  {
    assert [a, b][..1] == [a] && [a][..0] == [];
    assert NumberOf([a]) == NumberOf([]) * 10 + DigitOf(a);
  }

  /** A concrete pair: half a second past midnight is not before midnight, but sorts before it. */
  lemma HalfPastMidnight()
    ensures var late, midnight := "2024-01-01T00:00:00" + ("." + "5" + "Z"), "2024-01-01T00:00:00" + "Z";
            && Parse(late).Some? && Parse(midnight).Some?
            && LexLess(late, midnight) && EpochOf(late) == EpochOf(midnight)
  {
    var base := "2024-01-01T00:00:00";
    MidnightParses(base + "Z");
    FractionSortsEarly(base, "5");
  }

  lemma MidnightSlices(s: string)
    requires s == "2024-01-01T00:00:00"
    ensures |s| == BASE && s[..4] == ['2', '0', '2', '4']
    ensures s[5..7] == ['0', '1'] && s[8..10] == ['0', '1']
    ensures s[11..13] == ['0', '0'] && s[14..16] == ['0', '0'] && s[17..19] == ['0', '0']
    ensures s[4] == '-' && s[7] == '-' && s[10] == 'T' && s[13] == ':' && s[16] == ':'
  {
    assert |s| == 19;
    assert s[0] == '2' && s[1] == '0' && s[2] == '2' && s[3] == '4';
    assert s[5] == '0' && s[6] == '1' && s[8] == '0' && s[9] == '1';
    assert s[11] == '0' && s[12] == '0' && s[14] == '0' && s[15] == '0' && s[17] == '0' && s[18] == '0';
    assert s[..4] == ['2', '0', '2', '4'];
    assert s[5..7] == ['0', '1'];
    assert s[8..10] == ['0', '1'];
    assert s[11..13] == ['0', '0'];
    assert s[14..16] == ['0', '0'];
    assert s[17..19] == ['0', '0'];
  }

  lemma MidnightParses(s: string)
    requires s == "2024-01-01T00:00:00" + "Z"
    ensures Parse(s).Some?
  {
    hide DaysInMonth, NumberOf;
    var base := "2024-01-01T00:00:00";
    MidnightFields(base);
    assert s[..BASE] == base && s[BASE..] == "Z";
  }

  lemma MidnightFields(base: string)
    requires base == "2024-01-01T00:00:00"
    ensures |base| == BASE && BaseShape(base) && Valid(FieldsOf(base))
  {
    hide NumberOf;
    MidnightSlices(base);
    TwoDigits('0', '1');
    TwoDigits('0', '0');
  }
}
