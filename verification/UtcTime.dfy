/**
  Timestamps of the RFC 3339 section 5.6 form "YYYY-MM-DDThh:mm:ss[.f{1,9}]Z" as nanoseconds
  since 1970 (inci_tennis_adapters/sportradar_tennis_v3.py, _utc_ns).
*/
module UtcTime {
  import opened Common
  import opened Digits

  const NANOS_PER_SECOND: nat := 1_000_000_000

  datatype Date = Date(year: int, month: int, day: int)

  datatype Stamp = Stamp(date: Date, hour: int, minute: int, second: int, nanos: int)

  datatype TimeError = PayloadInvalid

  // ---------- The closed formula ----------

  predicate IsLeapYear(year: int) { year % 4 == 0 && (year % 100 != 0 || year % 400 == 0) }

  function MonthLength(year: int, month: int): int {
    if month in {4, 6, 9, 11} then 30
    else if month == 2 then if IsLeapYear(year) then 29 else 28
    else 31
  }

  /** `sum(month_lengths[: month - 1])`. */
  function DaysBeforeMonth(year: int, month: int): int {
    if month <= 1 then 0 else DaysBeforeMonth(year, month - 1) + MonthLength(year, month - 1)
  }

  function DaysBeforeYear(year: int): int {
    var prior := year - 1;
    365 * prior + prior / 4 - prior / 100 + prior / 400 - 719_162
  }

  function Days(d: Date): int {
    DaysBeforeYear(d.year) + DaysBeforeMonth(d.year, d.month) + d.day - 1
  }

  predicate ValidDate(d: Date) {
    d.year >= 1 && 1 <= d.month <= 12 && 1 <= d.day <= MonthLength(d.year, d.month)
  }

  predicate ValidStamp(t: Stamp) {
    && ValidDate(t.date) && 0 <= t.hour <= 23 && 0 <= t.minute <= 59 && 0 <= t.second <= 59
    && 0 <= t.nanos < NANOS_PER_SECOND
  }

  function Seconds(t: Stamp): int {
    ((Days(t.date) * 24 + t.hour) * 60 + t.minute) * 60 + t.second
  }

  function Nanoseconds(t: Stamp): int { Seconds(t) * NANOS_PER_SECOND + t.nanos }

  // ---------- The text ----------

  /** `text.ljust(width, "0")`. */
  function PadRight(s: string, width: nat): string
    decreases width - |s|
  {
    if |s| >= width then s else PadRight(s + "0", width)
  }

  predicate FractionForm(s: string) {
    s == "" || (2 <= |s| <= 10 && s[0] == '.' && AllDigits(s[1..]))
  }

  /** The pattern: fixed-width digit fields between fixed separators, then an optional fraction. */
  predicate UtcForm(text: string) {
    && |text| >= 20
    && AllDigits(text[0..4]) && text[4] == '-' && AllDigits(text[5..7]) && text[7] == '-' && AllDigits(text[8..10])
    && text[10] == 'T'
    && AllDigits(text[11..13]) && text[13] == ':' && AllDigits(text[14..16]) && text[16] == ':'
    && AllDigits(text[17..19])
    && FractionForm(text[19..|text| - 1])
    && text[|text| - 1] == 'Z'
  }

  lemma {:induction false} PaddedDigits(s: string, width: nat)
    requires AllDigits(s) && |s| <= width
    ensures AllDigits(PadRight(s, width)) && |PadRight(s, width)| == width
    decreases width - |s|
  {
    if |s| < width { PaddedDigits(s + "0", width); }
  }

  function FractionNanos(fraction: string): nat
    requires FractionForm(fraction)
  {
    if fraction == "" then 0
    else
      PaddedDigits(fraction[1..], 9);
      Number(PadRight(fraction[1..], 9))
  }

  function ReadStamp(text: string): Stamp
    requires UtcForm(text)
  {
    Stamp(Date(Number(text[0..4]), Number(text[5..7]), Number(text[8..10])),
          Number(text[11..13]), Number(text[14..16]), Number(text[17..19]),
          FractionNanos(text[19..|text| - 1]))
  }

  function UtcNs(text: string): Result<nat, TimeError> {
    if !UtcForm(text) then Err(PayloadInvalid)
    else
      var t := ReadStamp(text);
      if !ValidDate(t.date) || t.hour > 23 || t.minute > 59 || t.second > 59 then Err(PayloadInvalid)
      else
        var ns := Nanoseconds(t);
        if ns < 0 || ns > MAX_SIGNED_64 then Err(PayloadInvalid) else Ok(ns)
  }

  // ---------- Order ----------

  predicate EarlierDate(a: Date, b: Date) {
    a.year < b.year || (a.year == b.year && (a.month < b.month || (a.month == b.month && a.day < b.day)))
  }

  predicate Earlier(a: Stamp, b: Stamp) {
    EarlierDate(a.date, b.date)
    || (a.date == b.date
        && (a.hour < b.hour || (a.hour == b.hour
            && (a.minute < b.minute || (a.minute == b.minute
                && (a.second < b.second || (a.second == b.second && a.nanos < b.nanos)))))))
  }

  lemma YearLength(year: int)
    ensures DaysBeforeYear(year + 1) == DaysBeforeYear(year) + (if IsLeapYear(year) then 366 else 365)
  {
    FourYears(year);
    Century(year);
    FourCenturies(year);
    Multiples(year);
  }

  lemma FourYears(year: int)
    ensures year / 4 == (year - 1) / 4 + (if year % 4 == 0 then 1 else 0)
  {
  }

  lemma Century(year: int)
    ensures year / 100 == (year - 1) / 100 + (if year % 100 == 0 then 1 else 0)
  {
  }

  lemma FourCenturies(year: int)
    ensures year / 400 == (year - 1) / 400 + (if year % 400 == 0 then 1 else 0)
  {
  }

  lemma Multiples(year: int)
    ensures year % 100 == 0 ==> year % 4 == 0
    ensures year % 400 == 0 ==> year % 100 == 0
  {
    if year % 100 == 0 { TimesFour(year, year / 100); }
    if year % 400 == 0 { TimesHundred(year, year / 400); }
  }

  lemma TimesFour(year: int, centuries: int)
    requires year == 100 * centuries
    ensures year % 4 == 0
  {
    var k := 25 * centuries;
    assert year == 4 * k;
  }

  lemma TimesHundred(year: int, k: int)
    requires year == 400 * k
    ensures year % 100 == 0
  {
    var centuries := 4 * k;
    assert year == 100 * centuries;
  }

  lemma {:induction false} YearsGrow(y: int, y': int)
    requires y <= y'
    ensures DaysBeforeYear(y) <= DaysBeforeYear(y')
    decreases y' - y
  {
    if y < y' {
      YearLength(y);
      YearsGrow(y + 1, y');
    }
  }

  lemma {:induction false} MonthsGrow(year: int, m: int, m': int)
    requires 1 <= m <= m'
    ensures DaysBeforeMonth(year, m) <= DaysBeforeMonth(year, m')
    decreases m' - m
  {
    if m < m' { MonthsGrow(year, m + 1, m'); }
  }

  lemma YearOfMonths(year: int)
    ensures DaysBeforeMonth(year, 13) == if IsLeapYear(year) then 366 else 365
  {
    assert DaysBeforeMonth(year, 2) == 31;
    assert DaysBeforeMonth(year, 3) == 31 + MonthLength(year, 2);
    assert DaysBeforeMonth(year, 5) == DaysBeforeMonth(year, 3) + 61;
    assert DaysBeforeMonth(year, 7) == DaysBeforeMonth(year, 5) + 61;
    assert DaysBeforeMonth(year, 9) == DaysBeforeMonth(year, 7) + 62;
    assert DaysBeforeMonth(year, 11) == DaysBeforeMonth(year, 9) + 61;
  }

  lemma DayWithinYear(d: Date)
    requires ValidDate(d)
    ensures DaysBeforeYear(d.year) <= Days(d) < DaysBeforeYear(d.year + 1)
  {
    MonthsGrow(d.year, 1, d.month);
    MonthsGrow(d.year, d.month + 1, 13);
    YearOfMonths(d.year);
    YearLength(d.year);
  }

  lemma DaysOrder(a: Date, b: Date)
    requires ValidDate(a) && ValidDate(b) && EarlierDate(a, b)
    ensures Days(a) < Days(b)
  {
    if a.year < b.year {
      DayWithinYear(a);
      DayWithinYear(b);
      YearsGrow(a.year + 1, b.year);
    } else if a.month < b.month {
      MonthsGrow(a.year, a.month + 1, b.month);
    }
  }

  lemma EarlierIsSmaller(a: Stamp, b: Stamp)
    requires ValidStamp(a) && ValidStamp(b) && Earlier(a, b)
    ensures Nanoseconds(a) < Nanoseconds(b)
  {
    if EarlierDate(a.date, b.date) {
      DaysOrder(a.date, b.date);
    }
  }

  /** Nanoseconds order valid stamps exactly as the calendar and clock do. */
  lemma NanosecondsOrder(a: Stamp, b: Stamp)
    requires ValidStamp(a) && ValidStamp(b)
    ensures Nanoseconds(a) < Nanoseconds(b) <==> Earlier(a, b)
    ensures Nanoseconds(a) == Nanoseconds(b) <==> a == b
  {
    if Earlier(a, b) {
      EarlierIsSmaller(a, b);
    } else if a != b {
      EarlierIsSmaller(b, a);
    }
  }

  lemma Billion()
    ensures PowerOfTen(9) == NANOS_PER_SECOND
  {
    hide PowerOfTen;
    var n := 9 - 9;
    NoDigits(n);
    FourDigits(n);
    FourDigits(n + 4);
    TenMore(n + 8);
  }

  lemma ReadIsValid(text: string)
    requires UtcNs(text).Ok?
    ensures ValidStamp(ReadStamp(text))
  {
    var fraction := text[19..|text| - 1];
    if fraction != "" {
      PaddedDigits(fraction[1..], 9);
      Billion();
      FixedUnique(PadRight(fraction[1..], 9));
    }
  }

  /** Accepted texts are ordered by their nanoseconds exactly as by their fields, equal only for equal instants. */
  lemma UtcNsOrder(s: string, t: string)
    requires UtcNs(s).Ok? && UtcNs(t).Ok?
    ensures UtcNs(s).value < UtcNs(t).value <==> Earlier(ReadStamp(s), ReadStamp(t))
    ensures UtcNs(s).value == UtcNs(t).value <==> ReadStamp(s) == ReadStamp(t)
  {
    ReadIsValid(s);
    ReadIsValid(t);
    NanosecondsOrder(ReadStamp(s), ReadStamp(t));
  }

  // ---------- Counting days one at a time ----------

  const EPOCH := Date(1970, 1, 1)

  function NextDay(d: Date): Date {
    if d.day < MonthLength(d.year, d.month) then Date(d.year, d.month, d.day + 1)
    else if d.month < 12 then Date(d.year, d.month + 1, 1)
    else Date(d.year + 1, 1, 1)
  }

  /** The date `n` days after the epoch, found by turning `n` calendar pages. */
  function DayAfterEpoch(n: nat): Date {
    if n == 0 then EPOCH else NextDay(DayAfterEpoch(n - 1))
  }

  lemma NextDayIsOneMore(d: Date)
    requires ValidDate(d)
    ensures ValidDate(NextDay(d)) && Days(NextDay(d)) == Days(d) + 1
  {
    if d.day == MonthLength(d.year, d.month) && d.month == 12 {
      YearOfMonths(d.year);
      YearLength(d.year);
    }
  }

  lemma EpochIsDayZero(d: Date)
    requires d == EPOCH
    ensures ValidDate(d) && Days(d) == 0
  {
    assert DaysBeforeMonth(d.year, d.month) == 0;
    YearZero(d.year);
  }

  lemma YearZero(year: int)
    requires year == 1970
    ensures DaysBeforeYear(year) == 0
  {
    var prior := year - 1;
    assert prior / 4 == 492;
    assert prior / 100 == 19 && prior / 400 == 4;
  }

  lemma {:induction false} CountedDays(n: nat)
    ensures ValidDate(DayAfterEpoch(n)) && Days(DayAfterEpoch(n)) == n
  {
    if n == 0 {
      EpochIsDayZero(DayAfterEpoch(n));
    } else {
      CountedDays(n - 1);
      NextDayIsOneMore(DayAfterEpoch(n - 1));
    }
  }

  /** The closed formula is the number of calendar days counted from the epoch. */
  lemma FormulaCountsDays(d: Date)
    requires ValidDate(d) && Days(d) >= 0
    ensures DayAfterEpoch(Days(d)) == d
  {
    var counted := DayAfterEpoch(Days(d));
    CountedDays(Days(d));
    if EarlierDate(d, counted) {
      DaysOrder(d, counted);
    } else if EarlierDate(counted, d) {
      DaysOrder(counted, d);
    }
  }

  /** Splitting a count of seconds within a day. */
  lemma ClockOf(rest: nat)
    requires rest < 86400
    ensures var h, m := rest / 3600, rest / 60 % 60;
            0 <= h <= 23 && 0 <= m <= 59 && (h * 60 + m) * 60 + rest % 60 == rest
  {
    assert rest / 3600 == rest / 60 / 60;
  }

  lemma DayOf(seconds: nat)
    ensures seconds / 86400 * 86400 + seconds % 86400 == seconds
  {
  }

  lemma SecondsOf(d: Date, rest: nat, nanos: int)
    requires rest < 86400
    ensures Seconds(Stamp(d, rest / 3600, rest / 60 % 60, rest % 60, nanos)) == Days(d) * 86400 + rest
  {
    hide Days;
    ClockOf(rest);
  }

  /** The instant `n` nanoseconds after the epoch. */
  function InstantOf(n: nat): Stamp {
    var s := n / NANOS_PER_SECOND;
    var rest := s % 86400;
    Stamp(DayAfterEpoch(s / 86400), rest / 3600, rest / 60 % 60, rest % 60, n % NANOS_PER_SECOND)
  }

  lemma InstantIs(n: nat)
    ensures ValidStamp(InstantOf(n)) && Nanoseconds(InstantOf(n)) == n
  {
    var s := n / NANOS_PER_SECOND;
    hide DayAfterEpoch, ValidDate, Seconds;
    DayOf(s);
    ClockOf(s % 86400);
    CountedDays(s / 86400);
    SecondsOf(DayAfterEpoch(s / 86400), s % 86400, n % NANOS_PER_SECOND);
  }

  /** Every count of nanoseconds from the epoch on is exactly one valid stamp's. */
  lemma EveryInstant(n: nat)
    ensures exists t :: ValidStamp(t) && Nanoseconds(t) == n
    ensures forall t :: ValidStamp(t) && Nanoseconds(t) == n ==> t == InstantOf(n)
  {
    hide ValidStamp, Nanoseconds, InstantOf, Earlier;
    InstantIs(n);
    forall t | ValidStamp(t) && Nanoseconds(t) == n ensures t == InstantOf(n) {
      NanosecondsOrder(t, InstantOf(n));
    }
  }

  lemma EpochNanoseconds(d: Date)
    requires d == EPOCH
    ensures Nanoseconds(Stamp(d, 0, 0, 0, 0)) == 0
  {
    EpochIsDayZero(d);
    AtMidnight(d);
  }

  lemma AtMidnight(d: Date)
    ensures Nanoseconds(Stamp(d, 0, 0, 0, 0)) == Days(d) * 86400 * NANOS_PER_SECOND
  {
    hide Days;
  }

  // ---------- Every stamp has a text ----------

  /** `YYYY-MM-DD` and `Thh:mm:ss` of given digits. */
  function DateText(y: string, mo: string, d: string): string { y + "-" + mo + "-" + d }

  function ClockText(h: string, mi: string, s: string): string { "T" + h + ":" + mi + ":" + s }

  /** The text up to the whole second, and what follows it. */
  function TextOf(t: Stamp, tail: string): string
    requires ValidStamp(t) && t.date.year <= 9999
  {
    DateText(Fixed(t.date.year, 4), Fixed(t.date.month, 2), Fixed(t.date.day, 2))
    + ClockText(Fixed(t.hour, 2), Fixed(t.minute, 2), Fixed(t.second, 2))
    + tail
  }

  /** The canonical text, with all nine fraction digits. */
  function StampText(t: Stamp): string
    requires ValidStamp(t) && t.date.year <= 9999
  {
    TextOf(t, "." + Fixed(t.nanos, 9) + "Z")
  }

  lemma TwoFigures(n: nat)
    requires n == 2
    ensures PowerOfTen(n) == 100
  {
    NoDigits(n - 2);
    TenMore(n - 2);
    TenMore(n - 1);
  }

  lemma FourFigures(n: nat)
    requires n == 4
    ensures PowerOfTen(n) == 10_000
  {
    NoDigits(n - 4);
    FourDigits(n - 4);
  }

  lemma TwoDigits(k: nat)
    requires k < 100
    ensures |Fixed(k, 2)| == 2 && AllDigits(Fixed(k, 2)) && Number(Fixed(k, 2)) == k
  {
    TwoFigures(2);
    FixedRound(k, 2);
  }

  lemma DateFields(y: string, mo: string, d: string)
    requires |y| == 4 && |mo| == |d| == 2
    ensures var t := DateText(y, mo, d);
      && |t| == 10 && t[0..4] == y && t[5..7] == mo && t[8..10] == d && t[4] == t[7] == '-'
  {
  }

  lemma ClockFields(h: string, mi: string, s: string)
    requires |h| == |mi| == |s| == 2
    ensures var t := ClockText(h, mi, s);
      && |t| == 9 && t[1..3] == h && t[4..6] == mi && t[7..9] == s && t[0] == 'T' && t[3] == t[6] == ':'
  {
  }

  lemma Joined(date: string, clock: string, tail: string)
    requires |date| == 10 && |clock| == 9
    ensures var t := date + clock + tail;
      && |t| == 19 + |tail|
      && t[0..4] == date[0..4] && t[5..7] == date[5..7] && t[8..10] == date[8..10] && t[4] == date[4] && t[7] == date[7]
      && t[11..13] == clock[1..3] && t[14..16] == clock[4..6] && t[17..19] == clock[7..9]
      && t[10] == clock[0] && t[13] == clock[3] && t[16] == clock[6]
      && t[19..] == tail
  {
  }

  /** Where the fields of a text built like a stamp's are. */
  lemma Fields(y: string, mo: string, d: string, h: string, mi: string, s: string, tail: string)
    requires |y| == 4 && |mo| == |d| == |h| == |mi| == |s| == 2
    ensures var t := DateText(y, mo, d) + ClockText(h, mi, s) + tail;
      && |t| == 19 + |tail| && t[0..4] == y && t[5..7] == mo && t[8..10] == d && t[11..13] == h && t[14..16] == mi
      && t[17..19] == s
      && t[4] == t[7] == '-' && t[10] == 'T' && t[13] == t[16] == ':' && t[19..] == tail
  {
    DateFields(y, mo, d);
    ClockFields(h, mi, s);
    hide DateText, ClockText;
    Joined(DateText(y, mo, d), ClockText(h, mi, s), tail);
  }

  lemma StampFields(t: Stamp)
    requires ValidStamp(t) && t.date.year <= 9999
    ensures |Fixed(t.date.year, 4)| == 4 && AllDigits(Fixed(t.date.year, 4))
    ensures |Fixed(t.nanos, 9)| == 9 && AllDigits(Fixed(t.nanos, 9))
    ensures Number(Fixed(t.date.year, 4)) == t.date.year && Number(Fixed(t.nanos, 9)) == t.nanos
  {
    FourFigures(4);
    FixedRound(t.date.year, 4);
    Billion();
    FixedRound(t.nanos, 9);
  }

  /** A text ending in a fraction's form reads as the stamp with that fraction. */
  lemma TailRead(t: Stamp, fraction: string)
    requires ValidStamp(t) && t.date.year <= 9999 && FractionForm(fraction) && FractionNanos(fraction) == t.nanos
    ensures UtcForm(TextOf(t, fraction + "Z")) && ReadStamp(TextOf(t, fraction + "Z")) == t
  {
    StampFields(t);
    TwoDigits(t.date.month);
    TwoDigits(t.date.day);
    TwoDigits(t.hour);
    TwoDigits(t.minute);
    TwoDigits(t.second);
    hide Fixed, Number, MonthLength, DateText, ClockText, FractionNanos, FractionForm;
    var text := TextOf(t, fraction + "Z");
    Fields(Fixed(t.date.year, 4), Fixed(t.date.month, 2), Fixed(t.date.day, 2), Fixed(t.hour, 2), Fixed(t.minute, 2),
           Fixed(t.second, 2), fraction + "Z");
    LastOf(text, fraction);
  }

  lemma LastOf(text: string, fraction: string)
    requires |text| >= 19 && text[19..] == fraction + "Z"
    ensures text[19..|text| - 1] == fraction && text[|text| - 1] == 'Z'
  {
    assert text[19..][..|fraction|] == fraction && text[19..][|fraction|] == 'Z';
  }

  /** Reading a stamp's text gives the stamp. */
  lemma StampRoundTrip(t: Stamp)
    requires ValidStamp(t) && t.date.year <= 9999
    ensures UtcForm(StampText(t)) && ReadStamp(StampText(t)) == t
  {
    var fraction := "." + Fixed(t.nanos, 9);
    StampFields(t);
    assert fraction[1..] == Fixed(t.nanos, 9);
    hide UtcForm, ReadStamp, TextOf, Fixed;
    TailRead(t, fraction);
  }

  /** A stamp's text is accepted as its nanoseconds exactly when they fit in 63 bits, the epoch's text as zero. */
  lemma StampAccepted(t: Stamp)
    requires ValidStamp(t) && t.date.year <= 9999
    ensures UtcNs(StampText(t))
         == if 0 <= Nanoseconds(t) <= MAX_SIGNED_64 then Ok(Nanoseconds(t)) else Err(PayloadInvalid)
  {
    hide UtcForm, ReadStamp, StampText, Nanoseconds;
    StampRoundTrip(t);
  }

  /** The text of a whole second, without a fraction. */
  function SecondText(t: Stamp): string
    requires ValidStamp(t) && t.date.year <= 9999
  {
    TextOf(t, "Z")
  }

  /** A fraction may be left out: the text still reads as the stamp at the start of the second. */
  lemma SecondRoundTrip(t: Stamp)
    requires ValidStamp(t) && t.date.year <= 9999 && t.nanos == 0
    ensures UtcForm(SecondText(t)) && ReadStamp(SecondText(t)) == t
  {
    hide UtcForm, ReadStamp, TextOf;
    assert "" + "Z" == "Z";
    TailRead(t, "");
  }

  lemma TwoMore(k: nat, n: nat)
    ensures Fixed(k, n + 2) == Fixed(k / 100, n) + [Digit(k / 10 % 10), Digit(k % 10)]
  {
    assert k / 10 / 10 == k / 100;
  }

  lemma EpochDigits(n: nat)
    requires n == 0
    ensures Fixed(1970, n + 4) == "1970" && Fixed(1, n + 2) == "01" && Fixed(0, n + 2) == "00"
  {
    TwoMore(1970, n + 2);
    TwoMore(19, n);
    TwoMore(1, n);
    TwoMore(0, n);
    assert Fixed(0, n) == "";
  }

  lemma MidnightText(t: Stamp, y: string, mo: string, d: string, zero: string)
    requires ValidStamp(t) && t.date.year <= 9999 && t.hour == t.minute == t.second == 0
    requires Fixed(t.date.year, 4) == y && Fixed(t.date.month, 2) == mo && Fixed(t.date.day, 2) == d
          && Fixed(0, 2) == zero
    ensures SecondText(t) == DateText(y, mo, d) + ClockText(zero, zero, zero) + "Z"
  {
    hide Fixed, DateText, ClockText, ValidStamp;
  }

  lemma EpochText(t: Stamp)
    requires t == Stamp(EPOCH, 0, 0, 0, 0)
    ensures ValidStamp(t) && SecondText(t) == DateText("1970", "01", "01") + ClockText("00", "00", "00") + "Z"
  {
    EpochDigits(0);
    hide Fixed, DateText, ClockText, SecondText;
    MidnightText(t, "1970", "01", "01", "00");
  }

  lemma SecondAccepted(t: Stamp)
    requires ValidStamp(t) && t.date.year <= 9999 && t.nanos == 0
    ensures UtcNs(SecondText(t))
         == if 0 <= Nanoseconds(t) <= MAX_SIGNED_64 then Ok(Nanoseconds(t)) else Err(PayloadInvalid)
  {
    hide UtcForm, ReadStamp, SecondText, Nanoseconds;
    SecondRoundTrip(t);
  }

  lemma EpochJoined(text: string)
    requires text == "1970-01-01T00:00:00Z"
    ensures text == DateText("1970", "01", "01") + ClockText("00", "00", "00") + "Z"
  {
    assert text[..10] == DateText("1970", "01", "01");
    assert text[10..19] == ClockText("00", "00", "00");
    assert text[19..] == "Z";
    hide DateText, ClockText;
    assert text == text[..10] + text[10..19] + text[19..];
  }

  lemma EpochIsZero(text: string)
    requires text == "1970-01-01T00:00:00Z"
    ensures UtcNs(text) == Ok(0)
  {
    var d := EPOCH;
    EpochJoined(text);
    hide UtcNs, SecondText, ValidStamp, Nanoseconds, DateText, ClockText;
    EpochText(Stamp(d, 0, 0, 0, 0));
    SecondAccepted(Stamp(d, 0, 0, 0, 0));
    EpochNanoseconds(d);
  }

  // ---------- The accepted texts, exactly ----------

  /** The Gregorian calendar, month by month. */
  predicate OnCalendar(d: Date) {
    var leap := (d.year % 4 == 0 && d.year % 100 != 0) || d.year % 400 == 0;
    && d.year >= 1 && d.day >= 1
    && match d.month
       case 1 => d.day <= 31
       case 2 => d.day <= 28 || (leap && d.day == 29)
       case 3 => d.day <= 31
       case 4 => d.day <= 30
       case 5 => d.day <= 31
       case 6 => d.day <= 30
       case 7 => d.day <= 31
       case 8 => d.day <= 31
       case 9 => d.day <= 30
       case 10 => d.day <= 31
       case 11 => d.day <= 30
       case 12 => d.day <= 31
       case _ => false
  }

  lemma DatesAreOnCalendar(d: Date)
    ensures ValidDate(d) <==> OnCalendar(d)
  {
  }

  function Zeros(n: nat): string { seq(n, _ => '0') }

  /** The stamp in figures, with the leading `digits` of its fraction, the rest of which are zeros. */
  ghost predicate InFigures(text: string, t: Stamp, digits: string)
  {
    && OnCalendar(t.date) && t.date.year <= 9999
    && 0 <= t.hour < 24 && 0 <= t.minute < 60 && 0 <= t.second < 60 && 0 <= t.nanos < 1_000_000_000
    && |digits| <= 9 && Fixed(t.nanos, 9) == digits + Zeros(9 - |digits|)
    && text == Fixed(t.date.year, 4) + "-" + Fixed(t.date.month, 2) + "-" + Fixed(t.date.day, 2)
               + "T" + Fixed(t.hour, 2) + ":" + Fixed(t.minute, 2) + ":" + Fixed(t.second, 2)
               + (if digits == "" then "" else "." + digits) + "Z"
  }

  lemma {:induction false} PaddedIs(s: string, width: nat)
    requires |s| <= width
    ensures PadRight(s, width) == s + Zeros(width - |s|)
    decreases width - |s|
  {
    if |s| < width {
      PaddedIs(s + "0", width);
      assert "0" + Zeros(width - |s| - 1) == Zeros(width - |s|);
    }
  }

  lemma FieldRead(field: string)
    requires AllDigits(field)
    ensures Fixed(Number(field), |field|) == field
  {
    FixedUnique(field);
  }

  lemma Cut(text: string)
    requires |text| >= 20 && text[4] == text[7] == '-' && text[10] == 'T' && text[13] == text[16] == ':'
    requires text[|text| - 1] == 'Z'
    ensures text == text[0..4] + "-" + text[5..7] + "-" + text[8..10] + "T" + text[11..13] + ":" + text[14..16] + ":"
                    + text[17..19] + text[19..|text| - 1] + "Z"
  {
  }

  lemma ReadInFigures(text: string)
    requires UtcNs(text).Ok?
    ensures |text| >= 20
    ensures var fraction := text[19..|text| - 1];
      InFigures(text, ReadStamp(text), if fraction == "" then "" else fraction[1..])
  {
    AcceptedForm(text);
    hide UtcNs, UtcForm, ReadStamp, Fixed, OnCalendar, Zeros;
    ReadInRange(text);
    TextSplit(text);
  }

  lemma AcceptedForm(text: string)
    requires UtcNs(text).Ok?
    ensures |text| >= 20 && UtcForm(text) && ValidStamp(ReadStamp(text))
  {
    ReadIsValid(text);
  }

  lemma ReadInRange(text: string)
    requires |text| >= 20 && UtcForm(text) && ValidStamp(ReadStamp(text))
    ensures var t, fraction := ReadStamp(text), text[19..|text| - 1];
      var digits := if fraction == "" then "" else fraction[1..];
      && OnCalendar(t.date) && t.date.year <= 9999
      && 0 <= t.hour < 24 && 0 <= t.minute < 60 && 0 <= t.second < 60 && 0 <= t.nanos < 1_000_000_000
      && |digits| <= 9 && Fixed(t.nanos, 9) == digits + Zeros(9 - |digits|)
      && fraction == (if digits == "" then "" else "." + digits)
  {
    var t, fraction := ReadStamp(text), text[19..|text| - 1];
    assert FractionForm(fraction) && t.nanos == FractionNanos(fraction) && t.date.year == Number(text[0..4]);
    hide UtcForm, ReadStamp, Fixed, Number, OnCalendar, FractionNanos, Zeros, MonthLength;
    DatesAreOnCalendar(t.date);
    YearInFigures(text);
    FractionRead(fraction);
  }

  /** The fields with their separators make up the text. */
  lemma TextSplit(text: string)
    requires |text| >= 20 && UtcForm(text) && ValidStamp(ReadStamp(text))
    ensures var t := ReadStamp(text);
      text == Fixed(t.date.year, 4) + "-" + Fixed(t.date.month, 2) + "-" + Fixed(t.date.day, 2)
              + "T" + Fixed(t.hour, 2) + ":" + Fixed(t.minute, 2) + ":" + Fixed(t.second, 2)
              + text[19..|text| - 1] + "Z"
  {
    FieldsRead(text);
    hide UtcForm, ReadStamp, Fixed, MonthLength;
    Cut(text);
  }

  lemma FieldsRead(text: string)
    requires UtcForm(text)
    ensures var t := ReadStamp(text);
      && text[0..4] == Fixed(t.date.year, 4) && text[5..7] == Fixed(t.date.month, 2)
      && text[8..10] == Fixed(t.date.day, 2) && text[11..13] == Fixed(t.hour, 2)
      && text[14..16] == Fixed(t.minute, 2) && text[17..19] == Fixed(t.second, 2)
      && text[4] == text[7] == '-' && text[10] == 'T' && text[13] == text[16] == ':' && text[|text| - 1] == 'Z'
  {
    FieldRead(text[0..4]);
    FieldRead(text[5..7]);
    FieldRead(text[8..10]);
    FieldRead(text[11..13]);
    FieldRead(text[14..16]);
    FieldRead(text[17..19]);
    hide Fixed, Number, FractionNanos, FractionForm;
  }

  lemma YearInFigures(text: string)
    requires UtcForm(text)
    ensures Number(text[0..4]) <= 9999
  {
    FixedUnique(text[0..4]);
    FourFigures(4);
  }

  lemma FractionRead(fraction: string)
    requires FractionForm(fraction)
    ensures var digits := if fraction == "" then "" else fraction[1..];
      Fixed(FractionNanos(fraction), 9) == digits + Zeros(9 - |digits|)
  {
    if fraction == "" {
      FractionNone(9);
    } else {
      PaddedDigits(fraction[1..], 9);
      PaddedIs(fraction[1..], 9);
      FieldRead(PadRight(fraction[1..], 9));
    }
  }

  lemma {:induction false} FractionNone(n: nat)
    ensures Fixed(0, n) == Zeros(n)
  {
    if n > 0 {
      FractionNone(n - 1);
      assert Zeros(n) == Zeros(n - 1) + "0";
    }
  }

  lemma FiguresRead(text: string, t: Stamp, digits: string)
    requires InFigures(text, t, digits)
    ensures ValidStamp(t) && UtcForm(text) && ReadStamp(text) == t
  {
    DatesAreOnCalendar(t.date);
    hide Fixed, UtcForm, ReadStamp, OnCalendar, MonthLength, FractionForm, FractionNanos, Zeros;
    FractionGiven(t.nanos, digits);
    var fraction := if digits == "" then "" else "." + digits;
    TailRead(t, fraction);
    assert text == TextOf(t, fraction + "Z");
  }

  lemma FractionGiven(nanos: nat, digits: string)
    requires nanos < 1_000_000_000 && |digits| <= 9 && Fixed(nanos, 9) == digits + Zeros(9 - |digits|)
    ensures var fraction := if digits == "" then "" else "." + digits;
      FractionForm(fraction) && FractionNanos(fraction) == nanos
  {
    var all := Fixed(nanos, 9);
    Billion();
    FixedRound(nanos, 9);
    FixedRound(0, 9);
    FractionNone(9);
    hide Fixed, Number, PowerOfTen;
    if digits == "" {
      assert all == Zeros(9);
    } else {
      LeadingDigits(all, digits, Zeros(9 - |digits|));
      assert ("." + digits)[1..] == digits;
      PaddedIs(digits, 9);
    }
  }

  lemma LeadingDigits(all: string, digits: string, more: string)
    requires AllDigits(all) && all == digits + more
    ensures AllDigits(digits)
  {
    assert forall i :: 0 <= i < |digits| ==> all[i] == digits[i];
  }

  /**
    A text is accepted exactly when it writes a time of the calendar and the clock in figures, with none to nine
    digits of fraction, from the epoch on and within 63 bits; what is returned is that time's nanoseconds.
  */
  lemma AcceptedExactly(text: string, ns: nat)
    ensures UtcNs(text) == Ok(ns) <==> exists t, digits ::
      InFigures(text, t, digits) && Nanoseconds(t) == ns <= 9_223_372_036_854_775_807
  {
    hide UtcForm, ReadStamp, InFigures, Nanoseconds;
    if UtcNs(text) == Ok(ns) {
      ReadInFigures(text);
      var t, fraction := ReadStamp(text), text[19..|text| - 1];
      var digits := if fraction == "" then "" else fraction[1..];
      assert InFigures(text, t, digits) && Nanoseconds(t) == ns;
    }
    if t, digits :| InFigures(text, t, digits) && Nanoseconds(t) == ns <= 9_223_372_036_854_775_807 {
      FiguresRead(text, t, digits);
    }
  }
}
