/**
 `IdGenerator`: identifiers made of a prefix and the time in UTC, to the millisecond, in fixed-width digits. The
 calendar is the proleptic Gregorian one of `DateTime`, years 1 to 9999; the clock is a parameter.
 */
module Calendar {
  /** A date: the day and the month count from 1. */
  datatype Date = Date(year: int, month: int, day: int) {
    predicate Valid() {
      1 <= year && 1 <= month <= 12 && 1 <= day <= DaysIn(year, month)
    }

    /** The order of the calendar. */
    predicate Before(other: Date) {
      || year < other.year
      || (year == other.year && month < other.month)
      || (year == other.year && month == other.month && day < other.day)
    }
  }

  predicate IsLeap(year: int) {
    year % 4 == 0 && (year % 100 != 0 || year % 400 == 0)
  }

  function DaysIn(year: int, month: int): int {
    if month == 2 then (if IsLeap(year) then 29 else 28)
    else if month == 4 || month == 6 || month == 9 || month == 11 then 30
    else 31
  }

  /** The days of the years before the given one, counted from the beginning of year 1. */
  function DaysBeforeYear(year: int): int {
    365 * (year - 1) + (year - 1) / 4 - (year - 1) / 100 + (year - 1) / 400
  }

  /** The days of the months before the given one in its year. */
  function DaysBeforeMonth(year: int, month: int): int
    decreases month
  {
    if month <= 1 then 0 else DaysBeforeMonth(year, month - 1) + DaysIn(year, month - 1)
  }

  /** The days between the first day of year 1 and the given date. */
  function DayNumber(d: Date): int {
    DaysBeforeYear(d.year) + DaysBeforeMonth(d.year, d.month) + d.day - 1
  }

  /** The month, not before the given one, that the day of the year `n` falls into. */
  function MonthOf(year: int, month: int, n: int): int
    decreases 12 - month
  {
    if month >= 12 || n < DaysBeforeMonth(year, month + 1) then month else MonthOf(year, month + 1, n)
  }

  /** The date of a day number, by the cycles of 400, 100, 4 and 1 years; the last of a cycle is the longer one. */
  function DateOf(n: int): Date {
    var y400, n400 := n / 146097, n % 146097;
    var y100 := if n400 / 36524 == 4 then 3 else n400 / 36524;
    var n100 := n400 - y100 * 36524;
    var y4, n4 := n100 / 1461, n100 % 1461;
    var y1 := if n4 / 365 == 4 then 3 else n4 / 365;
    var year, dayOfYear := 400 * y400 + 100 * y100 + 4 * y4 + y1 + 1, n4 - y1 * 365;
    var month := MonthOf(year, 1, dayOfYear);
    Date(year, month, dayOfYear - DaysBeforeMonth(year, month) + 1)
  }

  lemma By4(q: int, r: int)
    requires 0 <= r < 4
    ensures (4 * q + r) / 4 == q && (4 * q + r) % 4 == r
  {
  }

  lemma By100(q: int, r: int)
    requires 0 <= r < 100
    ensures (100 * q + r) / 100 == q && (100 * q + r) % 100 == r
  {
  }

  lemma By400(q: int, r: int)
    requires 0 <= r < 400
    ensures (400 * q + r) / 400 == q && (400 * q + r) % 400 == r
  {
  }

  /** Which of the years `100 * q + 4 * a + b` are leap years. */
  lemma LeapBy(q: int, a: int, b: int)
    requires 0 <= a <= 24 && 0 <= b <= 3
    ensures IsLeap(100 * q + 4 * a + b) <==> b == 0 && (a != 0 || q % 4 == 0)
  {
    By4(25 * q + a, b);
    By100(q, 4 * a + b);
    By400(q / 4, 100 * (q % 4) + 4 * a + b);
  }

  lemma YearLength(year: int)
    ensures DaysBeforeYear(year + 1) == DaysBeforeYear(year) + (if IsLeap(year) then 366 else 365)
    ensures DaysBeforeMonth(year, 12) + 31 == (if IsLeap(year) then 366 else 365)
  {
    hide IsLeap, DaysBeforeYear, DaysBeforeMonth;
    Months(year);
    var y400, y100, y4, y1 := Parts(year);
    Cycles(y400, y100, y4, y1);
    if y1 < 3 {
      Cycles(y400, y100, y4, y1 + 1);
    } else if y4 < 24 {
      Cycles(y400, y100, y4 + 1, 0);
    } else if y100 < 3 {
      Cycles(y400, y100 + 1, 0, 0);
    } else {
      Cycles(y400 + 1, 0, 0, 0);
    }
  }

  /** The whole cycles before a year. */
  lemma Parts(year: int) returns (y400: int, y100: int, y4: int, y1: int)
    ensures 0 <= y100 <= 3 && 0 <= y4 <= 24 && 0 <= y1 <= 3
    ensures year == 400 * y400 + 100 * y100 + 4 * y4 + y1 + 1
  {
    var n400 := (year - 1) % 400;
    var n100 := n400 % 100;
    y400, y100, y4, y1 := (year - 1) / 400, n400 / 100, n100 / 4, n100 % 4;
  }

  lemma Months(year: int)
    ensures
      var leap := if IsLeap(year) then 1 else 0;
      && DaysBeforeMonth(year, 1) == 0 && DaysBeforeMonth(year, 2) == 31
      && DaysBeforeMonth(year, 3) == 59 + leap && DaysBeforeMonth(year, 4) == 90 + leap
      && DaysBeforeMonth(year, 5) == 120 + leap && DaysBeforeMonth(year, 6) == 151 + leap
      && DaysBeforeMonth(year, 7) == 181 + leap && DaysBeforeMonth(year, 8) == 212 + leap
      && DaysBeforeMonth(year, 9) == 243 + leap && DaysBeforeMonth(year, 10) == 273 + leap
      && DaysBeforeMonth(year, 11) == 304 + leap && DaysBeforeMonth(year, 12) == 334 + leap
  {
    var march := DaysBeforeMonth(year, 3);
    var june := DaysBeforeMonth(year, 6);
    var september := DaysBeforeMonth(year, 9);
    assert march == DaysBeforeMonth(year, 2) + DaysIn(year, 2);
    assert june == DaysBeforeMonth(year, 5) + 31 && DaysBeforeMonth(year, 5) == DaysBeforeMonth(year, 4) + 30;
    assert september == DaysBeforeMonth(year, 8) + 31 && DaysBeforeMonth(year, 8) == DaysBeforeMonth(year, 7) + 31;
    assert DaysBeforeMonth(year, 12) == DaysBeforeMonth(year, 11) + 30;
    assert DaysBeforeMonth(year, 11) == DaysBeforeMonth(year, 10) + 31;
  }

  lemma {:induction false} MonthFits(year: int, month: int, n: int)
    requires 1 <= month <= 12 && DaysBeforeMonth(year, month) <= n < DaysBeforeMonth(year, 12) + 31
    ensures
      var m := MonthOf(year, month, n);
      1 <= m <= 12 && DaysBeforeMonth(year, m) <= n < DaysBeforeMonth(year, m) + DaysIn(year, m)
    decreases 12 - month
  {
    if month < 12 && DaysBeforeMonth(year, month + 1) <= n {
      MonthFits(year, month + 1, n);
    }
  }

  lemma DaysBy(y400: int, y100: int, y4: int, y1: int)
    requires 0 <= y100 <= 3 && 0 <= y4 <= 24 && 0 <= y1 <= 3
    ensures DaysBeforeYear(400 * y400 + 100 * y100 + 4 * y4 + y1 + 1) ==
            146097 * y400 + 36524 * y100 + 1461 * y4 + 365 * y1
  {
    By4(100 * y400 + 25 * y100 + y4, y1);
    By100(4 * y400 + y100, 4 * y4 + y1);
    By400(y400, 100 * y100 + 4 * y4 + y1);
  }

  /** The number of whole cycles before a year, and the days in them. */
  lemma Cycles(y400: int, y100: int, y4: int, y1: int)
    requires 0 <= y100 <= 3 && 0 <= y4 <= 24 && 0 <= y1 <= 3
    ensures
      var year := 400 * y400 + 100 * y100 + 4 * y4 + y1 + 1;
      && DaysBeforeYear(year) == 146097 * y400 + 36524 * y100 + 1461 * y4 + 365 * y1
      && (IsLeap(year) <==> y1 == 3 && (y4 != 24 || y100 == 3))
  {
    DaysBy(y400, y100, y4, y1);
    hide IsLeap, DaysBeforeYear;
    if y1 < 3 {
      LeapBy(4 * y400 + y100, y4, y1 + 1);
    } else if y4 < 24 {
      LeapBy(4 * y400 + y100, y4 + 1, 0);
    } else {
      LeapBy(4 * y400 + y100 + 1, 0, 0);
      if y100 < 3 {
        By4(y400, y100 + 1);
      } else {
        By4(y400 + 1, 0);
      }
    }
  }

  /** The cycles that `DateOf` finds: how many of 400, 100, 4 and 1 years have passed, and the day of the year. */
  lemma CyclesOf(n: int)
    returns (y400: int, y100: int, y4: int, y1: int, dayOfYear: int)
    requires 0 <= n
    ensures 0 <= y400 && 0 <= y100 <= 3 && 0 <= y4 <= 24 && 0 <= y1 <= 3
    ensures n == 146097 * y400 + 36524 * y100 + 1461 * y4 + 365 * y1 + dayOfYear
    ensures 0 <= dayOfYear <= 365 && (dayOfYear == 365 ==> y1 == 3 && (y4 != 24 || y100 == 3))
    ensures
      var year := 400 * y400 + 100 * y100 + 4 * y4 + y1 + 1;
      var month := MonthOf(year, 1, dayOfYear);
      DateOf(n) == Date(year, month, dayOfYear - DaysBeforeMonth(year, month) + 1)
  {
    hide DaysBeforeMonth, MonthOf;
    y400 := n / 146097;
    var n400 := n % 146097;
    y100 := if n400 / 36524 == 4 then 3 else n400 / 36524;
    var n100 := n400 - y100 * 36524;
    assert 0 <= n100 <= 36524 && (n100 == 36524 ==> y100 == 3);
    y4 := n100 / 1461;
    var n4 := n100 % 1461;
    assert n100 == 1461 * y4 + n4;
    assert y4 == 24 && y100 != 3 ==> n4 < 1460;
    y1 := if n4 / 365 == 4 then 3 else n4 / 365;
    dayOfYear := n4 - y1 * 365;
  }

  /** Every day number is that of the date found for it, and that date exists. */
  lemma DateOfIsInverse(n: int)
    requires 0 <= n
    ensures DateOf(n).Valid() && DayNumber(DateOf(n)) == n
  {
    var y400, y100, y4, y1, dayOfYear := CyclesOf(n);
    var year := 400 * y400 + 100 * y100 + 4 * y4 + y1 + 1;
    hide DateOf, DaysBeforeYear;
    Cycles(y400, y100, y4, y1);
    YearLength(year);
    MonthFits(year, 1, dayOfYear);
  }

  lemma {:induction false} YearsGrow(a: int, b: int)
    requires a <= b
    ensures DaysBeforeYear(a) + 365 * (b - a) <= DaysBeforeYear(b)
    decreases b - a
  {
    if a < b {
      YearLength(a);
      YearsGrow(a + 1, b);
    }
  }

  lemma {:induction false} MonthsGrow(year: int, a: int, b: int)
    requires 1 <= a < b
    ensures DaysBeforeMonth(year, a) + DaysIn(year, a) <= DaysBeforeMonth(year, b)
    decreases b
  {
    if a < b - 1 {
      MonthsGrow(year, a, b - 1);
    }
  }

  lemma DayInYear(d: Date)
    requires d.Valid()
    ensures DaysBeforeYear(d.year) <= DayNumber(d) < DaysBeforeYear(d.year + 1)
  {
    YearLength(d.year);
    if d.month < 12 {
      MonthsGrow(d.year, d.month, 12);
    }
    Months(d.year);
  }

  /** Day numbers follow the order of the calendar, so no two dates share one. */
  lemma DayNumbersFollowCalendar(d: Date, e: Date)
    requires d.Valid() && e.Valid()
    ensures DayNumber(d) < DayNumber(e) <==> d.Before(e)
    ensures DayNumber(d) == DayNumber(e) <==> d == e
  {
    if d.Before(e) {
      OrderedDays(d, e);
    } else if e.Before(d) {
      OrderedDays(e, d);
    }
  }

  lemma OrderedDays(d: Date, e: Date)
    requires d.Valid() && e.Valid() && d.Before(e)
    ensures DayNumber(d) < DayNumber(e)
  {
    hide DaysBeforeYear, DaysBeforeMonth, DaysIn, IsLeap;
    if d.year < e.year {
      DayInYear(d);
      DayInYear(e);
      YearsGrow(d.year + 1, e.year);
    } else if d.month < e.month {
      MonthsGrow(d.year, d.month, e.month);
    }
  }
}

module IdGenerator {
  import opened Results
  import opened Calendar

  const MILLISECONDS_PER_DAY := 86400000
  const UNIX_EPOCH_DAY := 719162
  const MIN_MILLISECONDS := -62135596800000
  const MAX_MILLISECONDS := 253402300799999

  datatype Error = ArgumentNull | WrongPrefixLength | TimeOutOfRange

  datatype Time = Time(hour: int, minute: int, second: int, millisecond: int) {
    predicate Valid() {
      0 <= hour < 24 && 0 <= minute < 60 && 0 <= second < 60 && 0 <= millisecond < 1000
    }

    /** The milliseconds since the day began. */
    function Milliseconds(): int {
      ((hour * 60 + minute) * 60 + second) * 1000 + millisecond
    }
  }

  datatype Moment = Moment(date: Date, time: Time)

  function TimeOf(ms: int): Time {
    Time(ms / 3600000, ms / 60000 % 60, ms / 1000 % 60, ms % 1000)
  }

  /** The time in UTC of a Unix timestamp in milliseconds. */
  function MomentOf(ms: int): Moment {
    Moment(DateOf(ms / MILLISECONDS_PER_DAY + UNIX_EPOCH_DAY), TimeOf(ms % MILLISECONDS_PER_DAY))
  }

  predicate IsDigit(c: char) {
    '0' <= c <= '9'
  }

  function Digit(n: int): char
    requires 0 <= n < 10
  {
    ('0' as int + n) as char
  }

  /** The last `width` decimal digits of a number. */
  function Digits(n: nat, width: nat): (s: string)
    ensures |s| == width
  {
    if width == 0 then "" else Digits(n / 10, width - 1) + [Digit(n % 10)]
  }

  /** The format `yyMMddHHmmssfff`. */
  function Format(m: Moment): string
    requires m.date.Valid() && m.time.Valid()
  {
    Digits(m.date.year % 100, 2) + Digits(m.date.month, 2) + Digits(m.date.day, 2) +
    Digits(m.time.hour, 2) + Digits(m.time.minute, 2) + Digits(m.time.second, 2) + Digits(m.time.millisecond, 3)
  }

  /** The length that .NET counts: a character beyond U+FFFF takes two units. */
  function Utf16Length(s: string): nat {
    if s == "" then 0 else (if s[0] as int > 0xFFFF then 2 else 1) + Utf16Length(s[1..])
  }

  /** The constructor's check of its prefix. */
  function ValidatePrefix(prefix: Option<string>): Result<string, Error> {
    if prefix.None? then Err(ArgumentNull)
    else if Utf16Length(prefix.value) != 4 then Err(WrongPrefixLength)
    else Ok(prefix.value)
  }

  predicate InRange(ms: int) {
    MIN_MILLISECONDS <= ms <= MAX_MILLISECONDS
  }

  /** The identifier of the time that the clock shows. */
  function Generate(prefix: string, now: Moment): string
    requires ValidMoment(now)
  {
    prefix + Format(now)
  }

  function GenerateFromEpochMilliseconds(prefix: string, ms: int): Result<string, Error> {
    if !InRange(ms) then Err(TimeOutOfRange)
    else
      MomentIsValid(ms);
      Ok(Generate(prefix, MomentOf(ms)))
  }

  // The time of an identifier.

  predicate ValidMoment(m: Moment) {
    m.date.Valid() && m.date.year <= 9999 && m.time.Valid()
  }

  /** The Unix timestamp of a time in UTC. */
  function Timestamp(m: Moment): int {
    (DayNumber(m.date) - UNIX_EPOCH_DAY) * MILLISECONDS_PER_DAY + m.time.Milliseconds()
  }

  /** The order of time. */
  predicate Earlier(m: Moment, n: Moment) {
    m.date.Before(n.date) || (m.date == n.date && m.time.Milliseconds() < n.time.Milliseconds())
  }

  lemma TimeOfIsInverse(ms: int)
    requires 0 <= ms < MILLISECONDS_PER_DAY
    ensures TimeOf(ms).Valid() && TimeOf(ms).Milliseconds() == ms
  {
    assert ms / 60000 == ms / 3600000 * 60 + ms / 60000 % 60;
    assert ms / 1000 == ms / 60000 * 60 + ms / 1000 % 60;
  }

  lemma MillisecondsIsInverse(t: Time)
    requires t.Valid()
    ensures 0 <= t.Milliseconds() < MILLISECONDS_PER_DAY && TimeOf(t.Milliseconds()) == t
  {
    var ms := t.Milliseconds();
    assert ms / 1000 == (t.hour * 60 + t.minute) * 60 + t.second;
    assert ms / 60000 == t.hour * 60 + t.minute;
  }

  /** Each timestamp in range is that of the moment found for it: a real date of the years 1 to 9999 and time of day. */
  lemma MomentIsValid(ms: int)
    requires InRange(ms)
    ensures ValidMoment(MomentOf(ms)) && Timestamp(MomentOf(ms)) == ms
  {
    hide DateOf, DayNumber, TimeOf, IsLeap, DaysIn;
    var day := ms / MILLISECONDS_PER_DAY + UNIX_EPOCH_DAY;
    DateOfIsInverse(day);
    TimeOfIsInverse(ms % MILLISECONDS_PER_DAY);
    YearsTo9999(DateOf(day));
  }

  /** The day numbers of the years 1 to 9999. */
  lemma YearsTo9999(d: Date)
    requires d.Valid()
    ensures 0 <= DayNumber(d) && (DayNumber(d) < 3652059 <==> d.year <= 9999)
  {
    DayInYear(d);
    YearsGrow(1, d.year);
    assert DaysBeforeYear(1) == 0 && DaysBeforeYear(10000) == 3652059;
    hide DaysBeforeYear, DayNumber;
    if d.year <= 9999 {
      YearsGrow(d.year + 1, 10000);
    } else {
      YearsGrow(10000, d.year);
    }
  }

  function Power10(n: nat): nat {
    if n == 0 then 1 else 10 * Power10(n - 1)
  }

  /** Digits of the higher and of the lower part of a number are the digits of the number. */
  lemma {:induction false} DigitsJoin(a: nat, b: nat, v: nat, w: nat)
    requires b < Power10(w)
    ensures Digits(a * Power10(w) + b, v + w) == Digits(a, v) + Digits(b, w)
  {
    if w == 0 {
      assert a * Power10(0) + b == a;
    } else {
      var n := a * Power10(w) + b;
      assert Power10(w) == 10 * Power10(w - 1);
      assert n == 10 * (a * Power10(w - 1)) + b;
      assert n / 10 == a * Power10(w - 1) + b / 10 && n % 10 == b % 10;
      DigitsJoin(a, b / 10, v, w - 1);
    }
  }

  /** The ordinal order of strings. */
  predicate Less(s: string, t: string) {
    t != "" && (s == "" || s[0] < t[0] || (s[0] == t[0] && Less(s[1..], t[1..])))
  }

  /** The day that timestamps count from is 1 January 1970. */
  lemma EpochIs1970()
    ensures DayNumber(Date(1970, 1, 1)) == UNIX_EPOCH_DAY
  {
    Months(1970);
  }

  /** The timestamps in range are exactly those of the years 1 to 9999, and each moment is found for its own. */
  lemma TimestampIsInverse(m: Moment)
    requires ValidMoment(m)
    ensures InRange(Timestamp(m)) && MomentOf(Timestamp(m)) == m
  {
    hide DateOf, DayNumber, TimeOf, Time.Milliseconds, IsLeap, DaysIn;
    var n := DayNumber(m.date);
    YearsTo9999(m.date);
    MillisecondsIsInverse(m.time);
    assert Timestamp(m) / MILLISECONDS_PER_DAY == n - UNIX_EPOCH_DAY;
    assert Timestamp(m) % MILLISECONDS_PER_DAY == m.time.Milliseconds();
    DateOfIsInverse(n);
    DayNumbersFollowCalendar(DateOf(n), m.date);
  }

  /** Later timestamps are those of later moments. */
  lemma MomentsFollowTime(a: int, b: int)
    requires InRange(a) && InRange(b)
    ensures a < b <==> Earlier(MomentOf(a), MomentOf(b))
  {
    hide MomentOf, DayNumber, Time.Milliseconds;
    MomentIsValid(a);
    MomentIsValid(b);
    MillisecondsIsInverse(MomentOf(a).time);
    MillisecondsIsInverse(MomentOf(b).time);
    DayNumbersFollowCalendar(MomentOf(a).date, MomentOf(b).date);
  }

  // Identifiers as strings.

  lemma {:induction false} LessAppend(s: string, t: string, x: char, y: char)
    requires |s| == |t|
    ensures Less(s + [x], t + [y]) <==> Less(s, t) || (s == t && x < y)
  {
    if s == "" {
      assert Less([x][1..], [y][1..]) == false;
    } else {
      assert (s + [x])[1..] == s[1..] + [x] && (t + [y])[1..] == t[1..] + [y];
      assert s == [s[0]] + s[1..] && t == [t[0]] + t[1..];
      LessAppend(s[1..], t[1..], x, y);
    }
  }

  lemma {:induction false} LessBehind(prefix: string, s: string, t: string)
    ensures Less(prefix + s, prefix + t) <==> Less(s, t)
  {
    if prefix == "" {
      assert prefix + s == s && prefix + t == t;
    } else {
      assert (prefix + s)[1..] == prefix[1..] + s && (prefix + t)[1..] == prefix[1..] + t;
      LessBehind(prefix[1..], s, t);
    }
  }

  /** Numbers of the same width are ordered as their digits are. */
  lemma {:induction false} DigitsFollowNumbers(a: nat, b: nat, w: nat)
    requires a < Power10(w) && b < Power10(w)
    ensures Less(Digits(a, w), Digits(b, w)) <==> a < b
    ensures Digits(a, w) == Digits(b, w) <==> a == b
  {
    if w != 0 {
      DigitsFollowNumbers(a / 10, b / 10, w - 1);
      var s, t := Digits(a / 10, w - 1), Digits(b / 10, w - 1);
      LessAppend(s, t, Digit(a % 10), Digit(b % 10));
      assert (s + [Digit(a % 10)])[..w - 1] == s && (t + [Digit(b % 10)])[..w - 1] == t;
      assert (s + [Digit(a % 10)])[w - 1] == Digit(a % 10) && (t + [Digit(b % 10)])[w - 1] == Digit(b % 10);
    }
  }

  // The formatted time is a number of fifteen digits.

  function DayStamp(d: Date): int {
    (d.year % 100 * 100 + d.month) * 100 + d.day
  }

  function TimeStamp(t: Time): int {
    ((t.hour * 100 + t.minute) * 100 + t.second) * 1000 + t.millisecond
  }

  function Stamp(m: Moment): int {
    DayStamp(m.date) * 1000000000 + TimeStamp(m.time)
  }

  lemma FormatIsStamp(m: Moment)
    requires ValidMoment(m)
    ensures 0 <= Stamp(m) < Power10(15) && Format(m) == Digits(Stamp(m), 15)
  {
    hide Digits;
    Powers();
    var y, t := m.date.year % 100, m.time;
    DigitsJoin(y, m.date.month, 2, 2);
    DigitsJoin(y * 100 + m.date.month, m.date.day, 4, 2);
    DigitsJoin(DayStamp(m.date), t.hour, 6, 2);
    DigitsJoin(DayStamp(m.date) * 100 + t.hour, t.minute, 8, 2);
    DigitsJoin((DayStamp(m.date) * 100 + t.hour) * 100 + t.minute, t.second, 10, 2);
    DigitsJoin(((DayStamp(m.date) * 100 + t.hour) * 100 + t.minute) * 100 + t.second, t.millisecond, 12, 3);
  }

  lemma Powers()
    ensures Power10(2) == 100 && Power10(3) == 1000 && Power10(15) == 1000000000000000
  {
    assert Power10(3) == 10 * Power10(2) && Power10(6) == 1000 * Power10(3);
    assert Power10(9) == 1000 * Power10(6) && Power10(12) == 1000 * Power10(9) && Power10(15) == 1000 * Power10(12);
  }

  /** A moment without its century. */
  function InCentury(m: Moment): Moment {
    m.(date := m.date.(year := m.date.year % 100))
  }

  lemma StampsFollowMoments(m: Moment, n: Moment)
    requires ValidMoment(m) && ValidMoment(n)
    ensures Stamp(m) < Stamp(n) <==> Earlier(InCentury(m), InCentury(n))
    ensures Stamp(m) == Stamp(n) <==> InCentury(m) == InCentury(n)
  {
    DayStampsFollowDates(m.date, n.date);
    TimeStampsFollowTimes(m.time, n.time);
    hide DayStamp, TimeStamp, Time.Milliseconds;
  }

  lemma DayStampsFollowDates(d: Date, e: Date)
    requires d.Valid() && e.Valid()
    ensures
      var d', e' := d.(year := d.year % 100), e.(year := e.year % 100);
      (DayStamp(d) < DayStamp(e) <==> d'.Before(e')) && (DayStamp(d) == DayStamp(e) <==> d' == e')
  {
    hide IsLeap;
  }

  lemma TimeStampsFollowTimes(t: Time, u: Time)
    requires t.Valid() && u.Valid()
    ensures 0 <= TimeStamp(t) < 1000000000
    ensures TimeStamp(t) < TimeStamp(u) <==> t.Milliseconds() < u.Milliseconds()
    ensures TimeStamp(t) == TimeStamp(u) <==> t == u
  {
    // The first part that differs decides.
    if t.hour == u.hour {
      if t.minute == u.minute {
      }
    }
  }

  lemma {:induction false} Utf16LengthJoins(s: string, t: string)
    ensures Utf16Length(s + t) == Utf16Length(s) + Utf16Length(t)
  {
    if s == "" {
      assert s + t == t;
    } else {
      assert (s + t)[1..] == s[1..] + t;
      Utf16LengthJoins(s[1..], t);
    }
  }

  lemma {:induction false} DigitsAreDigits(n: nat, width: nat)
    ensures forall c :: c in Digits(n, width) ==> IsDigit(c)
    ensures Utf16Length(Digits(n, width)) == width
  {
    if width != 0 {
      DigitsAreDigits(n / 10, width - 1);
      Utf16LengthJoins(Digits(n / 10, width - 1), [Digit(n % 10)]);
    }
  }

  /** An identifier is its prefix of four units and fifteen digits. */
  lemma IdIsLong(prefix: string, m: Moment)
    requires Utf16Length(prefix) == 4 && ValidMoment(m)
    ensures
      var id := Generate(prefix, m);
      && Utf16Length(id) == 19 && |id| == |prefix| + 15 && prefix <= id
      && forall c :: c in id[|prefix|..] ==> IsDigit(c)
  {
    FormatIsStamp(m);
    DigitsAreDigits(Stamp(m), 15);
    hide Format, Stamp, Digits, Utf16Length, IsDigit;
    Utf16LengthJoins(prefix, Format(m));
    assert (prefix + Format(m))[|prefix|..] == Format(m);
  }

  /**
   Identifiers with one prefix stand in ordinal order exactly as their times do within their centuries, and are equal
   exactly if the times differ in nothing but the century. Each is the prefix and fifteen digits: 19 units long.
   */
  lemma IdsFollowTheCentury(prefix: string, a: int, b: int)
    requires ValidatePrefix(Some(prefix)).Ok? && InRange(a) && InRange(b)
    ensures
      var x := GenerateFromEpochMilliseconds(prefix, a);
      var y := GenerateFromEpochMilliseconds(prefix, b);
      && x.Ok? && y.Ok?
      && (Less(x.value, y.value) <==> Earlier(InCentury(MomentOf(a)), InCentury(MomentOf(b))))
      && (x == y <==> InCentury(MomentOf(a)) == InCentury(MomentOf(b)))
      && Utf16Length(x.value) == 19 && |x.value| == |prefix| + 15 && prefix <= x.value
      && forall c :: c in x.value[|prefix|..] ==> IsDigit(c)
  {
    var m, n := MomentOf(a), MomentOf(b);
    MomentIsValid(a);
    MomentIsValid(b);
    hide MomentOf, Stamp, Earlier, InCentury;
    FormatIsStamp(m);
    FormatIsStamp(n);
    IdIsLong(prefix, m);
    hide Format, Digits, Less, Utf16Length, Power10, ValidMoment, IsDigit;
    LessBehind(prefix, Format(m), Format(n));
    DigitsFollowNumbers(Stamp(m), Stamp(n), 15);
    StampsFollowMoments(m, n);
    assert (prefix + Format(m))[|prefix|..] == Format(m) && (prefix + Format(n))[|prefix|..] == Format(n);
  }

  /** Two digits each of the year, the month, the day, the hour, the minute and the second, and three more. */
  lemma IdExample()
    ensures
      var m := Moment(Date(2024, 2, 29), Time(23, 59, 58, 7));
      ValidMoment(m) && Generate("DEMO", m) == "DEMO" + ("24" + "02" + "29" + "23" + "59" + "58" + "007")
  {
    TwoDigits(24);
    TwoDigits(2);
    TwoDigits(29);
    TwoDigits(23);
    TwoDigits(59);
    TwoDigits(58);
    TwoDigits(0);
    assert Digits(7, 3) == Digits(0, 2) + ['7'];
    hide Digits;
  }

  lemma TwoDigits(n: nat)
    requires n < 100
    ensures Digits(n, 2) == [Digit(n / 10), Digit(n % 10)]
  {
    OneDigit(n / 10);
    hide Digit;
  }

  lemma OneDigit(n: nat)
    requires n < 10
    ensures Digits(n, 1) == [Digit(n)]
  {
  }

  /** Increasing timestamps of one century give strictly increasing, hence distinct, identifiers. */
  lemma IdsIncrease(prefix: string, a: int, b: int)
    requires ValidatePrefix(Some(prefix)).Ok? && InRange(a) && InRange(b) && a < b
    requires MomentOf(a).date.year / 100 == MomentOf(b).date.year / 100
    ensures
      var x := GenerateFromEpochMilliseconds(prefix, a);
      var y := GenerateFromEpochMilliseconds(prefix, b);
      x.Ok? && y.Ok? && Less(x.value, y.value) && x != y
  {
    hide MomentOf;
    MomentsFollowTime(a, b);
    IdsFollowTheCentury(prefix, a, b);
  }

  /** Across centuries the order is lost: the last millisecond of 1999 comes after the first of 2000. */
  lemma CenturyTurns(prefix: string)
    requires ValidatePrefix(Some(prefix)).Ok?
    ensures
      var x := GenerateFromEpochMilliseconds(prefix, 946684799999);
      var y := GenerateFromEpochMilliseconds(prefix, 946684800000);
      x.Ok? && y.Ok? && Less(y.value, x.value)
  {
    var m, n := Moment(Date(1999, 12, 31), Time(23, 59, 59, 999)), Moment(Date(2000, 1, 1), Time(0, 0, 0, 0));
    TurnOf2000();
    hide DayNumber, MomentOf, GenerateFromEpochMilliseconds;
    TimestampIsInverse(m);
    TimestampIsInverse(n);
    IdsFollowTheCentury(prefix, 946684800000, 946684799999);
  }

  lemma TurnOf2000()
    ensures DayNumber(Date(1999, 12, 31)) == 730118 && DayNumber(Date(2000, 1, 1)) == 730119
  {
    Months(1999);
  }
}
