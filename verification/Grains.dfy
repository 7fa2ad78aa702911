/**
 * Time grains (crates/pawrly-core/src/semantic.rs). A grain cuts the time line into buckets;
 * `DATE_TRUNC` maps an instant to the start of its bucket. `CanRollUpTo` claims, from the names of
 * the grains alone, when buckets of one grain can be merged into buckets of another. Here that
 * claim is compared with the proleptic Gregorian calendar with weeks starting on Monday.
 */
module Grains {

  datatype TimeGrain = Hour | Day | Week | Month | Quarter | Year

  predicate CanRollUpTo(g: TimeGrain, coarser: TimeGrain) {
    g == coarser ||
    match g
    case Hour => true
    case Day => coarser in {Week, Month, Quarter, Year}
    case Week => false
    case Month => coarser in {Quarter, Year}
    case Quarter => coarser == Year
    case Year => false
  }

  // ------------------------------------------------------------------- the calendar

  /** Instants are microseconds since 1970-01-01T00:00:00, a Thursday. */
  const HOUR: int := 3_600_000_000
  const DAY: int := 24 * HOUR

  predicate IsLeap(y: int) {
    y % 4 == 0 && (y % 100 != 0 || y % 400 == 0)
  }

  /** Days from 1970-01-01 to the first day of year `y`. */
  function YearStart(y: int): int {
    365 * (y - 1970) + ((y - 1) / 4 - 492) - ((y - 1) / 100 - 19) + ((y - 1) / 400 - 4)
  }

  /** Days of the year before the month `m`, counted from 0 for January. */
  function DaysBefore(m: int, leap: bool): int
    requires 0 <= m < 12
  {
    [0, 31, 59, 90, 120, 151, 181, 212, 243, 273, 304, 334][m] + (if leap && m >= 2 then 1 else 0)
  }

  /** The day on which month `i` starts; months are counted from January of year 0. */
  function MonthStart(i: int): int {
    YearStart(i / 12) + DaysBefore(i % 12, IsLeap(i / 12))
  }

  /** The instant at which bucket `i` of a grain starts. */
  function Start(g: TimeGrain, i: int): int {
    match g
    case Hour => i * HOUR
    case Day => i * DAY
    case Week => (7 * i - 3) * DAY
    case Month => MonthStart(i) * DAY
    case Quarter => MonthStart(3 * i) * DAY
    case Year => MonthStart(12 * i) * DAY
  }

  lemma Quotients(y: int)
    ensures y / 4 == (y - 1) / 4 + (if y % 4 == 0 then 1 else 0)
    ensures y / 100 == (y - 1) / 100 + (if y % 100 == 0 then 1 else 0)
    ensures y / 400 == (y - 1) / 400 + (if y % 400 == 0 then 1 else 0)
  {}

  lemma YearLength(y: int)
    ensures YearStart(y + 1) == YearStart(y) + (if IsLeap(y) then 366 else 365)
  {
    Quotients(y);
    assert y % 400 == 0 ==> y % 100 == 0;
    assert y % 100 == 0 ==> y % 4 == 0;
  }

  /** Thirty days have April, June, September and November. */
  lemma MonthLength(i: int)
    ensures var m := i % 12 + 1;
      MonthStart(i + 1) - MonthStart(i)
      == if m in {4, 6, 9, 11} then 30 else if m != 2 then 31 else if IsLeap(i / 12) then 29 else 28
  {
    YearLength(i / 12);
    if i % 12 == 11 {
      assert (i + 1) / 12 == i / 12 + 1 && (i + 1) % 12 == 0;
    } else {
      assert (i + 1) / 12 == i / 12 && (i + 1) % 12 == i % 12 + 1;
    }
  }

  lemma {:induction false} MonthsApart(i: int, n: nat)
    ensures MonthStart(i) + 28 * n <= MonthStart(i + n)
    decreases n
  {
    hide MonthStart;
    if n == 0 {
      assert i + n == i;
    } else {
      MonthsApart(i, n - 1);
      MonthLength(i + (n - 1));
      assert i + (n - 1) + 1 == i + n;
    }
  }

  lemma Advances(g: TimeGrain, i: int)
    ensures Start(g, i) + 1 <= Start(g, i + 1)
  {
    hide MonthStart;
    match g
    case Month => MonthsApart(i, 1);
    case Quarter => MonthsApart(3 * i, 3); assert 3 * (i + 1) == 3 * i + 3;
    case Year => MonthsApart(12 * i, 12); assert 12 * (i + 1) == 12 * i + 12;
    case _ =>
  }

  lemma {:induction false} Increasing(g: TimeGrain, i: int, j: int)
    requires i < j
    ensures Start(g, i) < Start(g, j)
    decreases j - i
  {
    Advances(g, j - 1);
    if i < j - 1 {
      Increasing(g, i, j - 1);
    }
  }

  // ---------------------------------------------------------------------- truncation

  predicate InBucket(g: TimeGrain, i: int, t: int) {
    Start(g, i) <= t < Start(g, i + 1)
  }

  /** The bucket of an instant, searched for from bucket `i`. */
  function Locate(g: TimeGrain, t: int, i: int): (r: int)
    ensures InBucket(g, r, t)
    decreases if InBucket(g, i, t) then 0 else 1, if t < Start(g, i) then Start(g, i) - t else t - Start(g, i)
  {
    if t < Start(g, i) then
      Advances(g, i - 1);
      Locate(g, t, i - 1)
    else if t >= Start(g, i + 1) then
      Advances(g, i);
      Locate(g, t, i + 1)
    else i
  }

  /** `DATE_TRUNC`: the start of the bucket of `t`. */
  function Trunc(g: TimeGrain, t: int): int {
    Start(g, Locate(g, t, 0))
  }

  lemma TruncIs(g: TimeGrain, i: int, t: int)
    requires InBucket(g, i, t)
    ensures Trunc(g, t) == Start(g, i)
  {
    hide Start;
    var j := Locate(g, t, 0);
    if i < j {
      if i + 1 < j { Increasing(g, i + 1, j); }
    } else if j < i {
      if j + 1 < i { Increasing(g, j + 1, i); }
    }
  }

  // ------------------------------------------------------------------------- nesting

  /** The bucket of the finer grain that starts where bucket `i` of the coarser one does. */
  function Embed(g: TimeGrain, c: TimeGrain, i: int): int
    requires CanRollUpTo(g, c)
  {
    if g == c then i
    else if g == Month then (if c == Quarter then 3 * i else 12 * i)
    else if g == Quarter then 4 * i
    else
      var day := match c
        case Week => 7 * i - 3
        case Month => MonthStart(i)
        case Quarter => MonthStart(3 * i)
        case Year => MonthStart(12 * i)
        case _ => i;
      if g == Day then day else 24 * day
  }

  lemma EmbedStarts(g: TimeGrain, c: TimeGrain, i: int)
    requires CanRollUpTo(g, c)
    ensures Start(g, Embed(g, c, i)) == Start(c, i)
  {
    hide MonthStart;
    assert 3 * (4 * i) == 12 * i;
  }

  /** Every boundary of the coarser grain is one of the finer, so truncating twice is harmless. */
  lemma Nested(g: TimeGrain, c: TimeGrain, t: int)
    requires CanRollUpTo(g, c)
    ensures Trunc(c, Trunc(g, t)) == Trunc(c, t)
  {
    hide Start, CanRollUpTo, Embed, Locate;
    var i, k := Locate(c, t, 0), Locate(g, t, 0);
    EmbedStarts(g, c, i);
    var e := Embed(g, c, i);
    if k < e {
      if k + 1 < e { Increasing(g, k + 1, e); }
    } else if e < k {
      Increasing(g, e, k);
    }
    TruncIs(c, i, Trunc(g, t));
  }

  /** An instant at which grains that do not roll up disagree. */
  function Misfit(g: TimeGrain): int {
    match g
    case Hour => 0
    case Day => HOUR
    case Week => 0
    case Month => 40 * DAY
    case Quarter => 40 * DAY
    case Year => 100 * DAY
  }

  const JANUARY_1970: int := 12 * 1970

  /** Buckets of the instants used as misfits. */
  lemma KnownBuckets()
    ensures Trunc(Hour, 0) == 0 && Trunc(Hour, HOUR) == HOUR && Trunc(Hour, -3 * DAY) == -3 * DAY
    ensures Trunc(Hour, 31 * DAY) == 31 * DAY && Trunc(Hour, 40 * DAY) == 40 * DAY
    ensures Trunc(Hour, 100 * DAY) == 100 * DAY
    ensures Trunc(Day, 0) == 0 && Trunc(Day, HOUR) == 0 && Trunc(Day, -3 * DAY) == -3 * DAY
    ensures Trunc(Day, 31 * DAY) == 31 * DAY && Trunc(Day, 40 * DAY) == 40 * DAY
    ensures Trunc(Day, 100 * DAY) == 100 * DAY
    ensures Trunc(Week, 0) == -3 * DAY && Trunc(Week, 31 * DAY) == 25 * DAY
    ensures Trunc(Week, 40 * DAY) == 39 * DAY && Trunc(Week, 100 * DAY) == 95 * DAY
  {
    hide Trunc;
    TruncIs(Hour, 0, 0);
    TruncIs(Hour, 1, HOUR);
    TruncIs(Hour, -72, -3 * DAY);
    TruncIs(Hour, 24 * 31, 31 * DAY);
    TruncIs(Hour, 24 * 40, 40 * DAY);
    TruncIs(Hour, 24 * 100, 100 * DAY);
    TruncIs(Day, 0, 0);
    TruncIs(Day, 0, HOUR);
    TruncIs(Day, -3, -3 * DAY);
    TruncIs(Day, 31, 31 * DAY);
    TruncIs(Day, 40, 40 * DAY);
    TruncIs(Day, 100, 100 * DAY);
    TruncIs(Week, 0, 0);
    TruncIs(Week, 4, 31 * DAY);
    TruncIs(Week, 6, 40 * DAY);
    TruncIs(Week, 14, 100 * DAY);
  }

  lemma MonthOfYear(y: int, m: int)
    requires 0 <= m < 12
    ensures MonthStart(12 * y + m) == YearStart(y) + DaysBefore(m, IsLeap(y))
  {
    assert (12 * y + m) / 12 == y && (12 * y + m) % 12 == m;
  }

  lemma MonthsOf1970()
    ensures MonthStart(JANUARY_1970) == 0 && MonthStart(JANUARY_1970 + 1) == 31 && MonthStart(JANUARY_1970 + 2) == 59
    ensures MonthStart(JANUARY_1970 + 3) == 90 && MonthStart(JANUARY_1970 + 4) == 120
    ensures MonthStart(JANUARY_1970 + 6) == 181 && MonthStart(JANUARY_1970 + 12) == 365
    ensures MonthStart(JANUARY_1970 - 1) == -31 && MonthStart(JANUARY_1970 - 3) == -92
    ensures MonthStart(JANUARY_1970 - 12) == -365
  {
    hide MonthStart;
    MonthOfYear(1970, 0);
    MonthOfYear(1970, 1);
    MonthOfYear(1970, 2);
    MonthOfYear(1970, 3);
    MonthOfYear(1970, 4);
    MonthOfYear(1970, 6);
    MonthOfYear(1971, 0);
    MonthOfYear(1969, 11);
    MonthOfYear(1969, 9);
    MonthOfYear(1969, 0);
  }

  lemma KnownMonths()
    ensures Trunc(Month, 0) == 0 && Trunc(Month, -3 * DAY) == -31 * DAY
    ensures Trunc(Month, 40 * DAY) == 31 * DAY && Trunc(Month, 100 * DAY) == 90 * DAY
  {
    hide MonthStart, Trunc;
    MonthsOf1970();
    TruncIs(Month, JANUARY_1970, 0);
    TruncIs(Month, JANUARY_1970 - 1, -3 * DAY);
    TruncIs(Month, JANUARY_1970 + 1, 40 * DAY);
    TruncIs(Month, JANUARY_1970 + 3, 100 * DAY);
  }

  lemma KnownQuarters()
    ensures Trunc(Quarter, 0) == 0 && Trunc(Quarter, -3 * DAY) == -92 * DAY
    ensures Trunc(Quarter, 40 * DAY) == 0 && Trunc(Quarter, 100 * DAY) == 90 * DAY
    ensures Trunc(Year, 0) == 0 && Trunc(Year, -3 * DAY) == -365 * DAY && Trunc(Year, 100 * DAY) == 0
  {
    hide MonthStart, Trunc;
    MonthsOf1970();
    TruncIs(Quarter, 4 * 1970, 0);
    TruncIs(Quarter, 4 * 1970 - 1, -3 * DAY);
    TruncIs(Quarter, 4 * 1970, 40 * DAY);
    TruncIs(Quarter, 4 * 1970 + 1, 100 * DAY);
    TruncIs(Year, 1970, 0);
    TruncIs(Year, 1969, -3 * DAY);
    TruncIs(Year, 1970, 100 * DAY);
  }

  lemma NotNested(g: TimeGrain, c: TimeGrain)
    requires !CanRollUpTo(g, c)
    ensures Trunc(c, Trunc(g, Misfit(g))) != Trunc(c, Misfit(g))
  {
    hide Trunc, Start;
    KnownBuckets();
    KnownMonths();
    KnownQuarters();
  }

  /** The rule by names is exactly nesting of the calendar's buckets. */
  lemma RollsUpExactly(g: TimeGrain, c: TimeGrain)
    ensures CanRollUpTo(g, c) <==> forall t :: Trunc(c, Trunc(g, t)) == Trunc(c, t)
  {
    if CanRollUpTo(g, c) {
      forall t ensures Trunc(c, Trunc(g, t)) == Trunc(c, t) {
        Nested(g, c, t);
      }
    } else {
      NotNested(g, c);
    }
  }
}
