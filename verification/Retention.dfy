/**
 History retention: ISO 8601 stamps as text, day arithmetic on them, expiry and purging.
 Text is ASCII, so a byte offset is a character offset.
 */
module Retention {
  import opened Basics
  import opened Calendar

  const SECONDS_PER_DAY: int := 86400
  /** The day number of 9999-12-31, the last date with a four-digit year. */
  const LAST_DAY: int := 2932896

  // ----- decimal text -----

  function Digit(d: nat): char
    requires d < 10
  {
    ('0' as int + d) as char
  }

  predicate IsDigit(c: char) {
    '0' <= c <= '9'
  }

  function Decimal(n: nat): string {
    if n < 10 then [Digit(n)] else Decimal(n / 10) + [Digit(n % 10)]
  }

  /** `{:0width}`: at least `width` digits. */
  function Pad(n: nat, width: nat): string {
    if width <= 1 then Decimal(n) else Pad(n / 10, width - 1) + [Digit(n % 10)]
  }

  predicate AllDigits(s: string) {
    forall i :: 0 <= i < |s| ==> IsDigit(s[i])
  }

  function ValueOf(s: string): nat
    requires AllDigits(s)
  {
    if s == [] then 0 else ValueOf(s[..|s| - 1]) * 10 + (s[|s| - 1] as int - '0' as int)
  }

  /** `str::parse::<u64>` on short text: digits, with an optional plus sign. */
  function ParseU64(s: string): Option<nat> {
    var t := if s != [] && s[0] == '+' then s[1..] else s;
    if t != [] && AllDigits(t) then Some(ValueOf(t)) else None
  }

  function ParseOr(s: string, default: nat): nat {
    match ParseU64(s) case Some(n) => n case None => default
  }

  lemma AppendDigit(s: string, d: nat)
    requires AllDigits(s) && d < 10
    ensures AllDigits(s + [Digit(d)]) && ValueOf(s + [Digit(d)]) == ValueOf(s) * 10 + d
  {
    assert (s + [Digit(d)])[..|s|] == s;
  }

  lemma {:induction false} DecimalValue(n: nat)
    ensures Decimal(n) != [] && AllDigits(Decimal(n)) && ValueOf(Decimal(n)) == n
    decreases n
  {
    if n >= 10 {
      DecimalValue(n / 10);
      AppendDigit(Decimal(n / 10), n % 10);
    } else {
      assert ValueOf([Digit(n)]) == ValueOf([]) * 10 + n;
    }
  }

  lemma {:induction false} PadValue(n: nat, width: nat)
    ensures Pad(n, width) != [] && AllDigits(Pad(n, width)) && ValueOf(Pad(n, width)) == n
    decreases width
  {
    if width <= 1 {
      DecimalValue(n);
    } else {
      PadValue(n / 10, width - 1);
      AppendDigit(Pad(n / 10, width - 1), n % 10);
    }
  }

  lemma PadParses(n: nat, width: nat)
    ensures ParseU64(Pad(n, width)) == Some(n)
  {
    PadValue(n, width);
    assert IsDigit(Pad(n, width)[0]);
  }

  lemma PadLengths(n: nat)
    ensures n < 100 ==> |Pad(n, 2)| == 2
    ensures n < 10000 ==> |Pad(n, 4)| == 4
    ensures |Pad(n, 4)| >= 4 && |Pad(n, 2)| >= 2
  {
    assert Pad(n, 2) == Pad(n / 10, 1) + [Digit(n % 10)];
    assert Pad(n, 4) == Pad(n / 10, 3) + [Digit(n % 10)];
    assert Pad(n / 10, 3) == Pad(n / 10 / 10, 2) + [Digit(n / 10 % 10)];
    assert Pad(n / 10 / 10, 2) == Pad(n / 10 / 10 / 10, 1) + [Digit(n / 10 / 10 % 10)];
    DecimalValue(n / 10);
    DecimalValue(n / 10 / 10 / 10);
  }

  function Pow10(k: nat): nat {
    if k == 0 then 1 else 10 * Pow10(k - 1)
  }

  lemma {:induction false} ValueBound(s: string)
    requires AllDigits(s)
    ensures ValueOf(s) < Pow10(|s|)
    decreases |s|
  {
    if s != [] {
      ValueBound(s[..|s| - 1]);
    }
  }

  /** Short text never parses to more than its digits allow. */
  lemma ParseBound(s: string, default: nat)
    ensures |s| == 2 && default <= 99 ==> ParseOr(s, default) <= 99
    ensures |s| == 4 && default <= 9999 ==> ParseOr(s, default) <= 9999
  {
    var t := if s != [] && s[0] == '+' then s[1..] else s;
    if AllDigits(t) {
      ValueBound(t);
      assert Pow10(1) == 10 && Pow10(2) == 100;
      assert Pow10(3) == 1000 && Pow10(4) == 10000;
    }
  }

  // ----- stamps -----

  function FormatDate(d: Date): string {
    Pad(d.year, 4) + "-" + Pad(d.month, 2) + "-" + Pad(d.day, 2)
  }

  /** `chrono_now` at a given number of seconds since the epoch. */
  function Stamp(secs: nat): string {
    FormatDate(DaysToYmd(secs / SECONDS_PER_DAY)) + TimeSuffix(secs)
  }

  function TimeSuffix(secs: nat): string {
    "T" + Pad(secs / 3600 % 24, 2) + ":" + Pad(secs / 60 % 60, 2) + ":" + Pad(secs % 60, 2) + "Z"
  }

  /** The day number read back from fixed offsets, with a default for each field that does not parse. */
  function ParsedDay(ts: string, year: nat, month: nat, day: nat): nat
    requires |ts| >= 10
  {
    DaysFromYmd(ParseOr(ts[0..4], year), ParseOr(ts[5..7], month), ParseOr(ts[8..10], day))
  }

  function AddDays(ts: string, days: nat): string {
    if |ts| < 10 then ts
    else
      FormatDate(DaysToYmd(ParsedDay(ts, 2025, 1, 1) + days)) + (if |ts| > 10 then ts[10..] else "T00:00:00Z")
  }

  predicate IsExpired(expiresAt: Option<string>, nowSecs: nat) {
    && expiresAt.Some? && |expiresAt.value| >= 10
    && ParsedDay(expiresAt.value, 9999, 12, 31) < nowSecs / SECONDS_PER_DAY
  }

  /** A date whose year has four digits is read back exactly, whatever follows it. */
  lemma FormattedDateReadsBack(d: Date, suffix: string, year: nat, month: nat, day: nat)
    requires ValidDate(d) && d.year <= 9999
    ensures var ts := FormatDate(d) + suffix;
            |ts| >= 10 && ParsedDay(ts, year, month, day) == DayNumber(d) && ts[10..] == suffix
  {
    FieldsAreText(d);
    FieldsReadBack(Pad(d.year, 4), Pad(d.month, 2), Pad(d.day, 2), suffix, d, year, month, day);
  }

  lemma FieldsAreText(d: Date)
    requires ValidDate(d) && d.year <= 9999
    ensures |Pad(d.year, 4)| == 4 && ParseU64(Pad(d.year, 4)) == Some(d.year)
    ensures |Pad(d.month, 2)| == 2 && ParseU64(Pad(d.month, 2)) == Some(d.month)
    ensures |Pad(d.day, 2)| == 2 && ParseU64(Pad(d.day, 2)) == Some(d.day)
  {
    PadField(d.year, 4);
    PadField(d.month, 2);
    PadField(d.day, 2);
  }

  /** A number that fits its width fills it, and reads back. */
  lemma PadField(n: nat, width: nat)
    requires (width == 2 && n < 100) || (width == 4 && n < 10000)
    ensures |Pad(n, width)| == width && ParseU64(Pad(n, width)) == Some(n)
  {
    PadLengths(n);
    PadParses(n, width);
  }

  lemma FieldsReadBack(y: string, m: string, dd: string, suffix: string, d: Date, year: nat, month: nat, day: nat)
    requires |y| == 4 && |m| == 2 && |dd| == 2
    requires ParseU64(y) == Some(d.year) && ParseU64(m) == Some(d.month) && ParseU64(dd) == Some(d.day)
    ensures var ts := y + "-" + m + "-" + dd + suffix;
            |ts| >= 10 && ParsedDay(ts, year, month, day) == DayNumber(d) && ts[10..] == suffix
  {
    var ts := y + "-" + m + "-" + dd + suffix;
    assert ts[0..4] == y && ts[5..7] == m && ts[8..10] == dd;
  }

  lemma FourDigitYears(n: nat)
    ensures DaysToYmd(n).year <= 9999 <==> n <= LAST_DAY
    ensures DaysToYmd(n).year == 10000 <==> LAST_DAY < n <= LAST_DAY + 366
  {
    YearStartClosedForm(10000);
    YearStartClosedForm(10001);
    YearOfMeaning(n, 1970);
    var y := DaysToYmd(n).year;
    if y < 10000 {
      YearStartsGrow(y, 10000);
    } else if y > 10000 {
      YearStartsGrow(10000, y);
      if y > 10001 {
        YearStartsGrow(10001, y);
      }
    }
  }

  lemma DateTextReadsBack(n: nat, suffix: string, year: nat, month: nat, day: nat)
    requires n <= LAST_DAY
    ensures var ts := FormatDate(DaysToYmd(n)) + suffix;
            |ts| >= 10 && ParsedDay(ts, year, month, day) == n && ts[10..] == suffix
  {
    FourDigitYears(n);
    DaysRoundTrip(n);
    FormattedDateReadsBack(DaysToYmd(n), suffix, year, month, day);
  }

  /** Adding days to a formatted date moves its day number and keeps its suffix. */
  lemma AddDaysMoves(n: nat, suffix: string, k: nat)
    requires n <= LAST_DAY && suffix != ""
    ensures AddDays(FormatDate(DaysToYmd(n)) + suffix, k) == FormatDate(DaysToYmd(n + k)) + suffix
  {
    var ts := FormatDate(DaysToYmd(n)) + suffix;
    DateTextReadsBack(n, suffix, 2025, 1, 1);
    AddDaysFrom(ts, n, suffix, k);
  }

  lemma AddDaysFrom(ts: string, n: nat, suffix: string, k: nat)
    requires |ts| >= 10 && ParsedDay(ts, 2025, 1, 1) == n && ts[10..] == suffix && suffix != ""
    ensures AddDays(ts, k) == FormatDate(DaysToYmd(n + k)) + suffix
  {
  }

  lemma AddDaysMovesTo(ts: string, n: nat, suffix: string, k: nat, m: nat)
    requires n <= LAST_DAY && suffix != "" && ts == FormatDate(DaysToYmd(n)) + suffix && m == n + k
    ensures AddDays(ts, k) == FormatDate(DaysToYmd(m)) + suffix
  {
    AddDaysMoves(n, suffix, k);
  }

  /**
   Adding days composes additively exactly while the date in between has a four-digit year: the
   text of a later one is longer, and the rest of it stays behind.
   */
  lemma AddDaysCompose(n: nat, suffix: string, j: nat, k: nat)
    requires n <= LAST_DAY && suffix != ""
    ensures var ts := FormatDate(DaysToYmd(n)) + suffix;
            AddDays(AddDays(ts, j), k) == AddDays(ts, j + k) <==> n + j <= LAST_DAY
  {
    var m, p := n + j, n + j + k;
    var ts := FormatDate(DaysToYmd(n)) + suffix;
    AddDaysMovesTo(ts, n, suffix, j, m);
    AddDaysMovesTo(ts, n, suffix, j + k, p);
    MovesExactly(AddDays(ts, j), m, suffix, k, p);
  }

  /** Adding days to the text of a day gives the text of the day meant exactly if its year has four digits. */
  lemma MovesExactly(ts: string, m: nat, suffix: string, k: nat, p: nat)
    requires suffix != "" && ts == FormatDate(DaysToYmd(m)) + suffix && p == m + k
    ensures AddDays(ts, k) == FormatDate(DaysToYmd(p)) + suffix <==> m <= LAST_DAY
  {
    if m <= LAST_DAY {
      AddDaysMovesTo(ts, m, suffix, k, p);
    } else {
      LongTextKeepsTail(m, suffix, k, p);
    }
  }

  /** The text of a valid date: its year, then a dash, then five more characters. */
  lemma DateTextShape(d: Date)
    requires ValidDate(d)
    ensures var y := Pad(d.year, 4);
            && AllDigits(y) && |FormatDate(d)| == |y| + 6
            && FormatDate(d)[|y|] == '-' && forall i :: 0 <= i < |y| ==> FormatDate(d)[i] == y[i]
  {
    PadValue(d.year, 4);
    PadField(d.month, 2);
    PadField(d.day, 2);
  }

  /** Two texts that start with a date are equal only if what follows the dates is equally long. */
  lemma SameTextSameTail(a: Date, b: Date, x: string, y: string)
    requires ValidDate(a) && ValidDate(b) && FormatDate(a) + x == FormatDate(b) + y
    ensures |x| == |y|
  {
    var s, t := FormatDate(a) + x, FormatDate(b) + y;
    DateTextShape(a);
    DateTextShape(b);
    var m, n := |Pad(a.year, 4)|, |Pad(b.year, 4)|;
    assert s[m] == '-' && t[n] == '-';
    assert m < n ==> IsDigit(t[m]);
    assert n < m ==> IsDigit(s[n]);
  }

  lemma LongTextKeepsTail(m: nat, suffix: string, k: nat, p: nat)
    requires m > LAST_DAY
    ensures AddDays(FormatDate(DaysToYmd(m)) + suffix, k) != FormatDate(DaysToYmd(p)) + suffix
  {
    var d := DaysToYmd(m);
    var ts := FormatDate(d) + suffix;
    DaysRoundTrip(m);
    FourDigitYears(m);
    DateTextShape(d);
    FiveDigits(d.year);
    var q := ParsedDay(ts, 2025, 1, 1) + k;
    DaysRoundTrip(q);
    DaysRoundTrip(p);
    if FormatDate(DaysToYmd(q)) + ts[10..] == FormatDate(DaysToYmd(p)) + suffix {
      SameTextSameTail(DaysToYmd(q), DaysToYmd(p), ts[10..], suffix);
    }
  }

  lemma FiveDigits(n: nat)
    requires n >= 10000
    ensures |Pad(n, 4)| >= 5
  {
    PadValue(n, 4);
    ValueBound(Pad(n, 4));
    assert Pow10(2) == 100 && Pow10(4) == 10000;
    if |Pad(n, 4)| < 5 {
      PowersGrow(|Pad(n, 4)|, 4);
    }
  }

  lemma {:induction false} PowersGrow(a: nat, b: nat)
    requires a <= b
    ensures Pow10(a) <= Pow10(b)
    decreases b
  {
    if a < b {
      PowersGrow(a, b - 1);
    }
  }

  /** For instance: one day after 9999-12-31 and then none is not one day at once. */
  lemma AddDaysFailsPastYear9999()
    ensures var ts := FormatDate(DaysToYmd(LAST_DAY)) + "T00:00:00Z";
            AddDays(AddDays(ts, 1), 0) != AddDays(ts, 1 + 0)
  {
    AddDaysCompose(LAST_DAY, "T00:00:00Z", 1, 0);
  }

  // ----- retention end to end -----

  ghost predicate ExpiresAfter(ts: string, day: nat) {
    forall now: nat :: IsExpired(Some(ts), now) <==> now / SECONDS_PER_DAY > day
  }

  /** A record stamped at `secs` and kept `k` days expires exactly when more than `k` days have begun since. */
  ghost predicate RetentionExact(secs: nat, k: nat) {
    ExpiresAfter(AddDays(Stamp(secs), k), secs / SECONDS_PER_DAY + k)
  }

  lemma LongEnough(d: Date, suffix: string)
    ensures |FormatDate(d) + suffix| >= 10
  {
    PadLengths(d.year);
    PadLengths(d.month);
    PadLengths(d.day);
  }

  /** Whatever the text, the day read back is bounded by its offsets, or wraps. */
  lemma ParsedDayBound(ts: string)
    requires |ts| >= 10
    ensures var y := ParseOr(ts[0..4], 9999);
            var read := ParsedDay(ts, 9999, 12, 31);
            y <= 9999 && (read == U64_MAX || read <= YearStart(y) + 464)
  {
    ParseBound(ts[0..4], 9999);
    ParseBound(ts[5..7], 12);
    ParseBound(ts[8..10], 31);
    MonthStartAtMost(ParseOr(ts[0..4], 9999), MonthsBefore(ParseOr(ts[5..7], 12)));
  }

  lemma YearTenThousandReads(n: nat, suffix: string)
    requires DaysToYmd(n).year == 10000
    ensures var ts := FormatDate(DaysToYmd(n)) + suffix;
            |ts| >= 10 && ParseOr(ts[0..4], 9999) == 1000
  {
    LongEnough(DaysToYmd(n), suffix);
    TenThousand();
    var ts := FormatDate(DaysToYmd(n)) + suffix;
    assert ts[0..4] == Pad(10000, 4)[0..4];
  }

  /** Text with a year past 9999 is read back as an earlier day, or as one no clock reaches. */
  lemma LongYearMisreads(n: nat, suffix: string)
    requires n > LAST_DAY
    ensures var ts := FormatDate(DaysToYmd(n)) + suffix;
            |ts| >= 10 && (ParsedDay(ts, 9999, 12, 31) < n || ParsedDay(ts, 9999, 12, 31) == U64_MAX)
  {
    var ts := FormatDate(DaysToYmd(n)) + suffix;
    LongEnough(DaysToYmd(n), suffix);
    ParsedDayBound(ts);
    FourDigitYears(n);
    if n <= LAST_DAY + 366 {
      YearTenThousandReads(n, suffix);
      assert YearStart(1000) == 0;
    } else {
      YearStartClosedForm(9999);
      YearStartMonotone(ParseOr(ts[0..4], 9999), 9999);
    }
  }

  lemma TenThousand()
    ensures |Pad(10000, 4)| == 5 && ParseOr(Pad(10000, 4)[0..4], 9999) == 1000
  {
    assert Pad(10, 1) == Decimal(10) == Decimal(1) + [Digit(0)] == "10";
    assert Pad(100, 2) == "100";
    assert Pad(1000, 3) == "1000";
    assert Pad(10000, 4) == Pad(1000, 3) + "0";
    assert Pad(10000, 4)[0..4] == Pad(1000, 3);
    PadParses(1000, 3);
  }

  lemma MonthStartAtMost(year: nat, n: nat)
    requires n <= 12
    ensures MonthStart(year, n) <= 366
  {
    MonthStarts(year);
    if n < 12 {
      assert MonthStart(year, n) + MonthLengths(year)[n] <= MonthStart(year, 12);
    }
  }

  lemma YearStartMonotone(a: nat, b: nat)
    requires a <= b
    ensures YearStart(a) <= YearStart(b)
  {
    if 1970 <= a < b {
      YearStartsGrow(a, b);
    }
  }

  /**
   Retention is exact if and only if the expiry date has a four-digit year. Past that, the
   text no longer fits the offsets it is read back from.
   */
  lemma RetentionExactly(secs: nat, k: nat)
    requires secs <= U64_MAX && k < U32_MODULUS
    requires secs / SECONDS_PER_DAY <= LAST_DAY
    ensures RetentionExact(secs, k) <==> secs / SECONDS_PER_DAY + k <= LAST_DAY
  {
    var day := secs / SECONDS_PER_DAY + k;
    StampPlusDays(secs, k, day);
    DateTextExpires(AddDays(Stamp(secs), k), day, TimeSuffix(secs));
  }

  lemma StampPlusDays(secs: nat, k: nat, day: nat)
    requires secs / SECONDS_PER_DAY <= LAST_DAY && day == secs / SECONDS_PER_DAY + k
    ensures AddDays(Stamp(secs), k) == FormatDate(DaysToYmd(day)) + TimeSuffix(secs)
  {
    AddDaysMovesTo(Stamp(secs), secs / SECONDS_PER_DAY, TimeSuffix(secs), k, day);
  }

  lemma DateTextExpires(ts: string, day: nat, suffix: string)
    requires day < U64_MAX && ts == FormatDate(DaysToYmd(day)) + suffix
    ensures ExpiresAfter(ts, day) <==> day <= LAST_DAY
  {
    if day <= LAST_DAY {
      DateTextReadsBack(day, suffix, 9999, 12, 31);
    } else {
      LongYearMisreads(day, suffix);
    }
    ExpiresAfterExactly(ts, day);
  }

  /** A text stands for a day of expiry exactly when that is the day read back from it. */
  lemma ExpiresAfterExactly(ts: string, day: nat)
    requires |ts| >= 10
    ensures ExpiresAfter(ts, day) <==> ParsedDay(ts, 9999, 12, 31) == day
  {
    var read := ParsedDay(ts, 9999, 12, 31);
    if read != day {
      var between := (if read < day then day else read) * SECONDS_PER_DAY;
      assert IsExpired(Some(ts), between) != (between / SECONDS_PER_DAY > day);
    }
  }

  /** For instance: a record made on 9999-12-31 and kept one day is not kept - or never goes. */
  lemma RetentionFailsPastYear9999()
    ensures !RetentionExact(LAST_DAY * SECONDS_PER_DAY, 1)
  {
    assert LAST_DAY * SECONDS_PER_DAY / SECONDS_PER_DAY == LAST_DAY;
    RetentionExactly(LAST_DAY * SECONDS_PER_DAY, 1);
  }

  // ----- purging -----

  datatype HistoryRecord = HistoryRecord(field: string, value: string, savedAt: string, expiresAt: Option<string>)

  /** `retain(|h| !is_expired(h))`. */
  function Purge(history: seq<HistoryRecord>, now: nat): seq<HistoryRecord> {
    if history == [] then []
    else
      var rest := Purge(history[..|history| - 1], now);
      if IsExpired(history[|history| - 1].expiresAt, now) then rest else rest + [history[|history| - 1]]
  }

  method RetainLive(history: seq<HistoryRecord>, now: nat) returns (kept: seq<HistoryRecord>)
    ensures kept == Purge(history, now)
  {
    kept := [];
    for i := 0 to |history|
      invariant kept == Purge(history[..i], now)
    {
      assert history[..i + 1][..i] == history[..i];
      if !IsExpired(history[i].expiresAt, now) {
        kept := kept + [history[i]];
      }
    }
    assert history[..|history|] == history;
  }

  /**
   Purging works record by record and keeps the order: a live record stays, an expired one
   goes, around it nothing changes.
   */
  lemma {:induction false} PurgeKeepsOrder(a: seq<HistoryRecord>, r: HistoryRecord, b: seq<HistoryRecord>, now: nat)
    ensures Purge(a + [r] + b, now)
            == Purge(a, now) + (if IsExpired(r.expiresAt, now) then [] else [r]) + Purge(b, now)
    decreases |b|
  {
    var all := a + [r] + b;
    if b == [] {
      assert all[..|all| - 1] == a;
    } else {
      var b' := b[..|b| - 1];
      assert all[..|all| - 1] == a + [r] + b';
      PurgeKeepsOrder(a, r, b', now);
    }
  }

  /** An expired record stays expired as the clock advances. */
  lemma ExpiryIsMonotone(expiresAt: Option<string>, t1: nat, t2: nat)
    requires t1 <= t2 && IsExpired(expiresAt, t1)
    ensures IsExpired(expiresAt, t2)
  {
    assert t1 / SECONDS_PER_DAY <= t2 / SECONDS_PER_DAY;
  }

  /** Purging at `t1` and later at `t2` leaves what purging at `t2` alone leaves. */
  lemma {:induction false} PurgeTwice(history: seq<HistoryRecord>, t1: nat, t2: nat)
    requires t1 <= t2
    ensures Purge(Purge(history, t1), t2) == Purge(history, t2)
    decreases |history|
  {
    if history != [] {
      var n := |history| - 1;
      var first := Purge(history[..n], t1);
      PurgeTwice(history[..n], t1, t2);
      if IsExpired(history[n].expiresAt, t1) {
        ExpiryIsMonotone(history[n].expiresAt, t1, t2);
      } else {
        assert (first + [history[n]])[..|first|] == first;
      }
    }
  }
}
