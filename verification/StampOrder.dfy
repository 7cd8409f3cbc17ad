/** The text order of stamps is their order in time, which is what a merge relies on. */
module StampOrder {
  import opened Basics
  import opened Calendar
  import opened Retention
  import opened TextOrder

  /** Equally wide decimal texts compare as their numbers. */
  lemma {:induction false} PadOrder(a: nat, b: nat, width: nat)
    requires 1 <= width && a < Pow10(width) && b < Pow10(width)
    ensures |Pad(a, width)| == width == |Pad(b, width)|
    ensures Before(Pad(a, width), Pad(b, width)) <==> a < b
    ensures Pad(a, width) == Pad(b, width) <==> a == b
    decreases width
  {
    if width == 1 {
      OneDigit(a, b);
    } else {
      var x, y := Pad(a / 10, width - 1), Pad(b / 10, width - 1);
      PadOrder(a / 10, b / 10, width - 1);
      LastDigit(x, y, a, b);
    }
  }

  /** The numbers compare by their leading digits first. */
  lemma LastDigit(x: string, y: string, a: nat, b: nat)
    requires |x| == |y| && (Before(x, y) <==> a / 10 < b / 10) && (x == y <==> a / 10 == b / 10)
    ensures var s, t := x + [Digit(a % 10)], y + [Digit(b % 10)];
            (Before(s, t) <==> a < b) && (s == t <==> a == b)
  {
    OneDigit(a % 10, b % 10);
    BeforeByParts(x, [Digit(a % 10)], y, [Digit(b % 10)]);
    assert (x + [Digit(a % 10)])[..|x|] == x && (y + [Digit(b % 10)])[..|y|] == y;
    assert (x + [Digit(a % 10)])[|x|..] == [Digit(a % 10)] && (y + [Digit(b % 10)])[|y|..] == [Digit(b % 10)];
  }

  lemma OneDigit(a: nat, b: nat)
    requires a < 10 && b < 10
    ensures Before([Digit(a)], [Digit(b)]) <==> a < b
    ensures [Digit(a)] == [Digit(b)] <==> a == b
  {
    assert [Digit(a)][1..] == [] && [Digit(b)][1..] == [];
    assert [Digit(a)][0] == Digit(a) && [Digit(b)][0] == Digit(b);
  }

  /** A field and what follows it, after the same separator. */
  lemma FieldFirst(a: nat, b: nat, width: nat, x: string, y: string)
    requires 1 <= width && a < Pow10(width) && b < Pow10(width)
    ensures Before(Pad(a, width) + x, Pad(b, width) + y) <==> a < b || (a == b && Before(x, y))
  {
    PadOrder(a, b, width);
    BeforeByParts(Pad(a, width), x, Pad(b, width), y);
  }

  lemma Separated(c: char, x: string, y: string)
    ensures Before([c] + x, [c] + y) <==> Before(x, y)
  {
    assert ([c] + x)[1..] == x && ([c] + y)[1..] == y;
  }

  lemma FieldThen(a: nat, b: nat, width: nat, c: char, x: string, y: string)
    requires 1 <= width && a < Pow10(width) && b < Pow10(width)
    ensures Before(Pad(a, width) + ([c] + x), Pad(b, width) + ([c] + y)) <==> a < b || (a == b && Before(x, y))
  {
    FieldFirst(a, b, width, [c] + x, [c] + y);
    Separated(c, x, y);
  }

  /** Three fields and what follows them. */
  function Joined(f: string, g: string, h: string, c: char, x: string): string {
    f + ([c] + (g + ([c] + (h + x))))
  }

  lemma JoinedOrder(a: (nat, nat, nat), b: (nat, nat, nat), width: nat, c: char, x: string, y: string)
    requires 1 <= width && a.0 < Pow10(width) && b.0 < Pow10(width)
    requires a.1 < 100 && b.1 < 100 && a.2 < 100 && b.2 < 100
    ensures Before(Joined(Pad(a.0, width), Pad(a.1, 2), Pad(a.2, 2), c, x),
                   Joined(Pad(b.0, width), Pad(b.1, 2), Pad(b.2, 2), c, y))
            <==> || a.0 < b.0
                 || (a.0 == b.0 && (a.1 < b.1 || (a.1 == b.1 && (a.2 < b.2 || (a.2 == b.2 && Before(x, y))))))
  {
    Powers();
    var p, q := Pad(a.2, 2) + x, Pad(b.2, 2) + y;
    FieldFirst(a.2, b.2, 2, x, y);
    FieldThen(a.1, b.1, 2, c, p, q);
    FieldThen(a.0, b.0, width, c, Pad(a.1, 2) + ([c] + p), Pad(b.1, 2) + ([c] + q));
  }

  // ----- the time of day -----

  function Hour(secs: nat): nat { secs / 3600 % 24 }
  function Minute(secs: nat): nat { secs / 60 % 60 }
  function Second(secs: nat): nat { secs % 60 }

  /** Seconds since midnight, from the three fields. */
  lemma TimeOfDay(secs: nat)
    ensures secs % SECONDS_PER_DAY == Hour(secs) * 3600 + Minute(secs) * 60 + Second(secs)
    ensures Hour(secs) < 24 && Minute(secs) < 60 && Second(secs) < 60
  {
    var minutes := secs / 60;
    var hours := minutes / 60;
    QuotientOf(secs, 60, 60);
    assert secs == minutes * 60 + Second(secs) && minutes == hours * 60 + Minute(secs);
    assert hours == secs / 3600 && hours == hours / 24 * 24 + Hour(secs);
    assert secs == hours / 24 * 86400 + (Hour(secs) * 3600 + Minute(secs) * 60 + Second(secs));
  }

  lemma QuotientOf(n: nat, a: nat, b: nat)
    requires a == 60 && b == 60
    ensures n / a / b == n / 3600
  {
  }

  predicate EarlierInDay(a: nat, b: nat) {
    || Hour(a) < Hour(b)
    || (Hour(a) == Hour(b) && (Minute(a) < Minute(b) || (Minute(a) == Minute(b) && Second(a) < Second(b))))
  }

  lemma EarlierInDayMeaning(a: nat, b: nat)
    ensures EarlierInDay(a, b) <==> a % SECONDS_PER_DAY < b % SECONDS_PER_DAY
  {
    TimeOfDay(a);
    TimeOfDay(b);
  }

  lemma SuffixOrder(a: nat, b: nat)
    ensures Before(TimeSuffix(a), TimeSuffix(b)) <==> EarlierInDay(a, b)
  {
    Powers();
    TimeOfDay(a);
    TimeOfDay(b);
    SuffixJoined(Pad(Hour(a), 2), Pad(Minute(a), 2), Pad(Second(a), 2));
    SuffixJoined(Pad(Hour(b), 2), Pad(Minute(b), 2), Pad(Second(b), 2));
    Separated('T', Joined(Pad(Hour(a), 2), Pad(Minute(a), 2), Pad(Second(a), 2), ':', "Z"),
              Joined(Pad(Hour(b), 2), Pad(Minute(b), 2), Pad(Second(b), 2), ':', "Z"));
    JoinedOrder((Hour(a), Minute(a), Second(a)), (Hour(b), Minute(b), Second(b)), 2, ':', "Z", "Z");
    BeforeIsAsymmetric("Z", "Z");
  }

  lemma SuffixJoined(h: string, m: string, s: string)
    ensures "T" + h + ":" + m + ":" + s + "Z" == ['T'] + Joined(h, m, s, ':', "Z")
  {
  }

  lemma Powers()
    ensures Pow10(2) == 100 && Pow10(4) == 10000
  {
    assert Pow10(1) == 10 && Pow10(3) == 1000;
  }

  // ----- dates -----

  lemma DateJoined(y: string, m: string, d: string, x: string)
    ensures y + "-" + m + "-" + d + x == Joined(y, m, d, '-', x)
  {
  }

  lemma DateOrder(a: Date, b: Date, x: string, y: string)
    requires ValidDate(a) && ValidDate(b) && a.year <= 9999 && b.year <= 9999
    ensures Before(FormatDate(a) + x, FormatDate(b) + y) <==> Earlier(a, b) || (a == b && Before(x, y))
  {
    Powers();
    DateJoined(Pad(a.year, 4), Pad(a.month, 2), Pad(a.day, 2), x);
    DateJoined(Pad(b.year, 4), Pad(b.month, 2), Pad(b.day, 2), y);
    JoinedOrder((a.year, a.month, a.day), (b.year, b.month, b.day), 4, '-', x, y);
  }

  /** Up to year 9999, one stamp comes before another exactly when its instant does. */
  lemma StampOrderIsTimeOrder(a: nat, b: nat)
    requires a / SECONDS_PER_DAY <= LAST_DAY && b / SECONDS_PER_DAY <= LAST_DAY
    ensures Before(Stamp(a), Stamp(b)) <==> a < b
  {
    var m, n := a / SECONDS_PER_DAY, b / SECONDS_PER_DAY;
    var d, e := DaysToYmd(m), DaysToYmd(n);
    DaysRoundTrip(m);
    DaysRoundTrip(n);
    FourDigitYears(m);
    FourDigitYears(n);
    DateOrder(d, e, TimeSuffix(a), TimeSuffix(b));
    DayNumberOrder(d, e);
    SuffixOrder(a, b);
    EarlierInDayMeaning(a, b);
    DayFirst(a, b);
  }

  lemma DayFirst(a: nat, b: nat)
    ensures a < b <==> || a / SECONDS_PER_DAY < b / SECONDS_PER_DAY
                       || (&& a / SECONDS_PER_DAY == b / SECONDS_PER_DAY
                           && a % SECONDS_PER_DAY < b % SECONDS_PER_DAY)
  {
  }

  // ----- a stamp reads back -----

  /** The number written in two digits at an offset. */
  function TwoDigits(ts: string, at: nat): Option<nat>
    requires at + 2 <= |ts|
  {
    ParseU64(ts[at..at + 2])
  }

  lemma SuffixReadsBack(date: string, h: string, m: string, s: string)
    requires |date| == 10 && |h| == 2 && |m| == 2 && |s| == 2
    ensures var ts := date + ("T" + h + ":" + m + ":" + s + "Z");
            && |ts| == 20 && ts[10] == 'T' && ts[13] == ':' && ts[16] == ':' && ts[19] == 'Z'
            && ts[11..13] == h && ts[14..16] == m && ts[17..19] == s
  {
  }

  lemma DateLength(d: Date)
    requires ValidDate(d) && d.year <= 9999
    ensures |FormatDate(d)| == 10 && FormatDate(d)[4] == '-' == FormatDate(d)[7]
  {
    PadField(d.year, 4);
    PadField(d.month, 2);
    PadField(d.day, 2);
    DashPlaces(Pad(d.year, 4), Pad(d.month, 2), Pad(d.day, 2));
  }

  lemma DashPlaces(y: string, m: string, d: string)
    requires |y| == 4 && |m| == 2 && |d| == 2
    ensures var s := y + "-" + m + "-" + d;
            |s| == 10 && s[4] == '-' == s[7]
  {
  }

  /** Up to year 9999 a stamp is `YYYY-MM-DDThh:mm:ssZ`, and its instant reads back from those places. */
  lemma StampReadsBack(secs: nat)
    requires secs / SECONDS_PER_DAY <= LAST_DAY
    ensures var ts := Stamp(secs);
            && |ts| == 20 && ts[4] == '-' == ts[7] && ts[10] == 'T' && ts[13] == ':' == ts[16] && ts[19] == 'Z'
            && TwoDigits(ts, 11).Some? && TwoDigits(ts, 14).Some? && TwoDigits(ts, 17).Some?
            && secs == ParsedDay(ts, 1970, 1, 1) * 86400
                       + TwoDigits(ts, 11).value * 3600 + TwoDigits(ts, 14).value * 60 + TwoDigits(ts, 17).value
  {
    var n := secs / SECONDS_PER_DAY;
    var d := DaysToYmd(n);
    TimeOfDay(secs);
    PadField(Hour(secs), 2);
    PadField(Minute(secs), 2);
    PadField(Second(secs), 2);
    FourDigitYears(n);
    DaysRoundTrip(n);
    DateLength(d);
    SuffixReadsBack(FormatDate(d), Pad(Hour(secs), 2), Pad(Minute(secs), 2), Pad(Second(secs), 2));
    DateTextReadsBack(n, TimeSuffix(secs), 1970, 1, 1);
  }

  // ----- text that is no stamp -----

  /** Without an expiry, or with a text too short to be one, nothing ever expires, and days cannot be added to it. */
  lemma ShortTextNeverExpires(ts: string, days: nat, now: nat)
    requires |ts| < 10
    ensures !IsExpired(None, now) && !IsExpired(Some(ts), now) && AddDays(ts, days) == ts
  {
  }

  predicate Unreadable(ts: string) {
    |ts| >= 10 && ParseU64(ts[0..4]).None? && ParseU64(ts[5..7]).None? && ParseU64(ts[8..10]).None?
  }

  lemma DefaultDay(ts: string, year: nat, month: nat, day: nat)
    requires Unreadable(ts)
    ensures ParsedDay(ts, year, month, day) == DayNumber(Date(year, month, day))
  {
  }

  /** A text whose fields are no numbers expires only after 9999-12-31. */
  lemma UnreadableText(ts: string, now: nat)
    requires Unreadable(ts)
    ensures IsExpired(Some(ts), now) <==> now / SECONDS_PER_DAY > LAST_DAY
  {
    DefaultDay(ts, 9999, 12, 31);
    LastDay();
  }

  lemma LastDay()
    ensures DayNumber(Date(9999, 12, 31)) == LAST_DAY
  {
    DayNumberClosedForm(9999, 12, 31);
  }

  /** Adding days to such a text counts from 2025-01-01. */
  lemma UnreadableTextMoves(ts: string, days: nat, start: Date)
    requires Unreadable(ts) && start == Date(2025, 1, 1)
    ensures AddDays(ts, days)
            == FormatDate(DaysToYmd(DayNumber(start) + days)) + (if |ts| == 10 then "T00:00:00Z" else ts[10..])
  {
    DefaultDay(ts, start.year, start.month, start.day);
  }
}
