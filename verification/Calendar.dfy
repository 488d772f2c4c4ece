/** Timestamps: an exFAT date and time against seconds since 1970. */
module Calendar {
  import Content

  const MINUTE := 60
  const HOUR := 3600
  const DAY := 86400

  /** Seconds from the Unix epoch to the start of 1980: ten years, two of them leap. */
  const EPOCH_DIFF := (10 * 365 + 2) * DAY

  /** The days the 7-bit year field can reach: 128 years, 32 of them leap. */
  const RANGE_DAYS := 128 * 365 + 32

  // --- the calendar, counted out ---

  predicate Leap(year: nat) { (1980 + year) % 4 == 0 }

  function MonthLength(year: nat, month: nat): nat
    requires 1 <= month <= 12
  {
    if month == 2 then (if Leap(year) then 29 else 28)
    else if month == 4 || month == 6 || month == 9 || month == 11 then 30
    else 31
  }

  /** Days before a month begins, counted from the start of its year. */
  function DaysBeforeMonth(year: nat, month: nat): nat
    requires 1 <= month <= 13
  {
    if month == 1 then 0 else DaysBeforeMonth(year, month - 1) + MonthLength(year, month - 1)
  }

  /** Days before a year begins, counted from 1980. */
  function DaysBeforeYear(year: nat): nat {
    if year == 0 then 0 else DaysBeforeYear(year - 1) + DaysBeforeMonth(year - 1, 13)
  }

  datatype Stamp = Stamp(year: nat, month: nat, day: nat, hour: nat, minute: nat, second: nat)

  /** A date and time of the calendar within the 7-bit year. */
  predicate Real(s: Stamp) {
    && s.year < 128 && 1 <= s.month <= 12 && 1 <= s.day <= MonthLength(s.year, s.month)
    && s.hour < 24 && s.minute < 60 && s.second < 60
  }

  function DayNumber(s: Stamp): int
    requires 1 <= s.month <= 12
  {
    DaysBeforeYear(s.year) + DaysBeforeMonth(s.year, s.month) + s.day - 1
  }

  /** Seconds since the start of 1980, in the stamp's own timezone. */
  function Seconds(s: Stamp): int
    requires 1 <= s.month <= 12
  {
    DayNumber(s) * DAY + s.hour * HOUR + s.minute * MINUTE + s.second
  }

  /** Earlier in the calendar. */
  predicate Before(s: Stamp, t: Stamp) {
    s.year < t.year || (s.year == t.year
    && (s.month < t.month || (s.month == t.month
    && (s.day < t.day || (s.day == t.day
    && (s.hour < t.hour || (s.hour == t.hour
    && (s.minute < t.minute || (s.minute == t.minute && s.second < t.second)))))))))
  }

  lemma {:induction false} YearsClosed(year: nat)
    ensures DaysBeforeYear(year) == year * 365 + (year + 3) / 4
  {
    hide DaysBeforeMonth;
    if year > 0 {
      YearsClosed(year - 1);
      MonthsClosed(year - 1, 13);
    }
  }

  /** The table in the source, and the day that February adds in a leap year. */
  lemma MonthsClosed(year: nat, month: nat)
    requires 1 <= month <= 13
    ensures DaysBeforeMonth(year, month) == Table(month) + if Leap(year) && month > 2 then 1 else 0
  {
    if month > 1 {
      MonthsClosed(year, month - 1);
    }
  }

  function Table(month: nat): nat
    requires month <= 13
  {
    [0, 0, 31, 59, 90, 120, 151, 181, 212, 243, 273, 304, 334, 365][month]
  }

  lemma {:induction false} MonthsGrow(year: nat, month: nat, later: nat)
    requires 1 <= month < later <= 13
    ensures DaysBeforeMonth(year, month) + MonthLength(year, month) <= DaysBeforeMonth(year, later)
  {
    if later > month + 1 {
      MonthsGrow(year, month, later - 1);
    }
  }

  lemma {:induction false} YearsGrow(year: nat, later: nat)
    requires year < later
    ensures DaysBeforeYear(year) + DaysBeforeMonth(year, 13) <= DaysBeforeYear(later)
  {
    if later > year + 1 {
      YearsGrow(year, later - 1);
    }
  }

  lemma DaysOrdered(s: Stamp, t: Stamp)
    requires Real(s) && Real(t)
    requires s.year < t.year || (s.year == t.year && s.month < t.month)
             || (s.year == t.year && s.month == t.month && s.day < t.day)
    ensures DayNumber(s) < DayNumber(t)
  {
    hide DaysBeforeMonth, DaysBeforeYear, MonthLength;
    MonthsGrow(s.year, s.month, 13);
    if s.year < t.year {
      YearsGrow(s.year, t.year);
    } else if s.month < t.month {
      MonthsGrow(s.year, s.month, t.month);
    }
  }

  /** Later in the calendar is more seconds. */
  lemma Ordered(s: Stamp, t: Stamp)
    requires Real(s) && Real(t)
    ensures Before(s, t) <==> Seconds(s) < Seconds(t)
  {
    hide MonthLength, DayNumber;
    if Before(s, t) {
      Earlier(s, t);
    } else if Before(t, s) {
      Earlier(t, s);
    } else {
      assert s == t;
    }
  }

  lemma Earlier(s: Stamp, t: Stamp)
    requires Real(s) && Real(t) && Before(s, t)
    ensures Seconds(s) < Seconds(t)
  {
    hide MonthLength, DayNumber;
    if s.year != t.year || s.month != t.month || s.day != t.day {
      DaysOrdered(s, t);
    } else {
      assert DayNumber(s) == DayNumber(t) by { SameDay(s, t); }
    }
  }

  lemma SameDay(s: Stamp, t: Stamp)
    requires 1 <= s.month <= 12 && s.year == t.year && s.month == t.month && s.day == t.day
    ensures DayNumber(s) == DayNumber(t)
  {
  }

  /** The calendar stays within the 46752 days. */
  lemma SecondsInRange(s: Stamp)
    requires Real(s)
    ensures 0 <= Seconds(s) < RANGE_DAYS * DAY
  {
    hide DaysBeforeMonth, DaysBeforeYear, MonthLength;
    MonthsGrow(s.year, s.month, 13);
    YearsGrow(s.year, 128);
    YearsClosed(128);
  }

  // --- what is stored ---

  type u16 = n: nat | n < 0x1_0000
  type u8 = n: nat | n < 0x100

  /** The fields of a stored timestamp; the odd second is carried by the centiseconds. */
  function Unpacked(date: nat, time: nat, centisec: nat): Stamp {
    Stamp(date / 512, date / 32 % 16, date % 32, time / 2048, time / 32 % 64, time % 32 * 2 + centisec / 100)
  }

  /** What the source accepts: a day past the end of its month too. */
  predicate Accepted(date: nat, time: nat, centisec: nat) {
    var s := Unpacked(date, time, centisec);
    s.day > 0 && 1 <= s.month <= 12 && s.hour < 24 && s.minute < 60 && time % 32 < 30 && centisec < 200
  }

  /** Seconds since 1970 of a stored timestamp; zero for one that is not accepted. */
  function Decoded(date: u16, time: u16, centisec: u8, timezone: int): int {
    if Accepted(date, time, centisec) then EPOCH_DIFF + timezone + Seconds(Unpacked(date, time, centisec)) else 0
  }

  method Exfat2Unix(date: u16, time: u16, centisec: u8, timezone: int) returns (unixTime: int)
    ensures unixTime == Decoded(date, time, centisec, timezone)
  {
    hide DaysBeforeMonth, DaysBeforeYear, MonthLength;
    unixTime := EPOCH_DIFF;
    var day: nat, month: nat, year: nat := date % 32, date / 32 % 16, date / 512;
    var twosec: nat, min: nat, hour: nat := time % 32, time / 32 % 64, time / 2048;
    if day == 0 || month == 0 || month > 12 {
      return 0;
    }
    if hour > 23 || min > 59 || twosec > 29 {
      return 0;
    }
    if centisec > 199 {
      return 0;
    }
    YearsClosed(year);
    MonthsClosed(year, month);
    unixTime := unixTime + year * (365 * DAY) + ((1980 + year - 1) / 4 - (1980 - 1) / 4) * DAY;
    unixTime := unixTime + Table(month) * DAY;
    if (1980 + year) % 4 == 0 && month > 2 {
      unixTime := unixTime + DAY;
    }
    unixTime := unixTime + (day - 1) * DAY;
    unixTime := unixTime + hour * HOUR;
    unixTime := unixTime + min * MINUTE;
    unixTime := unixTime + twosec * 2;
    unixTime := unixTime + centisec / 100;
    unixTime := unixTime + timezone;
  }

  // --- the calendar outside ---

  predicate GregorianLeap(year: nat) {
    (1980 + year) % 4 == 0 && ((1980 + year) % 100 != 0 || (1980 + year) % 400 == 0)
  }

  function GregorianLength(year: nat, month: nat): nat
    requires 1 <= month <= 12
  {
    if month == 2 && !GregorianLeap(year) then 28 else MonthLength(year, month)
  }

  function GregorianBeforeMonth(year: nat, month: nat): nat
    requires 1 <= month <= 13
  {
    if month == 1 then 0 else GregorianBeforeMonth(year, month - 1) + GregorianLength(year, month - 1)
  }

  function GregorianBeforeYear(year: nat): nat {
    if year == 0 then 0 else GregorianBeforeYear(year - 1) + GregorianBeforeMonth(year - 1, 13)
  }

  function GregorianDay(s: Stamp): int
    requires 1 <= s.month <= 12
  {
    GregorianBeforeYear(s.year) + GregorianBeforeMonth(s.year, s.month) + s.day - 1
  }

  /** The year 2100 is no leap year, but one here. */
  const CENTURY: nat := 120

  lemma MonthsGregorian(year: nat, month: nat)
    requires 1 <= month <= 13 && year < 128
    ensures DaysBeforeMonth(year, month)
            == GregorianBeforeMonth(year, month) + if year == CENTURY && month > 2 then 1 else 0
  {
    if month > 1 {
      MonthsGregorian(year, month - 1);
    }
  }

  lemma {:induction false} YearsGregorian(year: nat)
    requires year <= 128
    ensures DaysBeforeYear(year) == GregorianBeforeYear(year) + if year > CENTURY then 1 else 0
  {
    hide DaysBeforeMonth, GregorianBeforeMonth;
    if year > 0 {
      YearsGregorian(year - 1);
      MonthsGregorian(year - 1, 13);
    }
  }

  /** Days are counted as outside exactly for the dates before March 2100; from then on they are one too many. */
  lemma GregorianUntil2100(s: Stamp)
    requires s.year < 128 && 1 <= s.month <= 12
    ensures DayNumber(s) == GregorianDay(s) <==> s.year < CENTURY || (s.year == CENTURY && s.month <= 2)
    ensures DayNumber(s) != GregorianDay(s) ==> DayNumber(s) == GregorianDay(s) + 1
  {
    hide DaysBeforeMonth, DaysBeforeYear, GregorianBeforeMonth, GregorianBeforeYear;
    YearsGregorian(s.year);
    MonthsGregorian(s.year, s.month);
  }

  /** And 29 February 2100 is the only day it has that there is not. */
  lemma OneDayTooMany(s: Stamp)
    requires Real(s)
    ensures s.day <= GregorianLength(s.year, s.month) <==> !(s.year == CENTURY && s.month == 2 && s.day == 29)
  {
  }

  /** The fields name the second `u` of the calendar, counted from 1980, in the form the source writes. */
  predicate Stores(date: nat, time: nat, centisec: nat, u: int) {
    && date < 0x1_0000 && time < 0x1_0000 && centisec < 0x100 && centisec % 100 == 0
    && Accepted(date, time, centisec) && Real(Unpacked(date, time, centisec))
    && Seconds(Unpacked(date, time, centisec)) == u
  }

  /** The second that is kept of the time `t`: the start of 1980 if `t` is before that, and beyond the range of the
      7-bit year one of the 128 years again. */
  function Kept(t: int, timezone: int): int {
    var shift := EPOCH_DIFF + timezone;
    Cut(if t < shift then 0 else t - shift)
  }

  predicate Encodes(t: int, timezone: int, date: nat, time: nat, centisec: nat) {
    Stores(date, time, centisec, Kept(t, timezone))
  }

  /** The year of a day counted from 1980. */
  lemma YearOf(days: nat)
    ensures var year := 4 * days / 1461;
            0 <= days - DaysBeforeYear(year) < DaysBeforeMonth(year, 13)
  {
    hide DaysBeforeMonth, DaysBeforeYear;
    var year := 4 * days / 1461;
    YearsClosed(year);
    MonthsClosed(year, 13);
  }

  /** Days to the end of the 65536 years that the source's 16-bit year can count. */
  const MOST_DAYS := 16384 * 1461

  method Unix2Exfat(t: int, timezone: int) returns (date: u16, time: u16, centisec: u8)
    requires t < EPOCH_DIFF + timezone + MOST_DAYS * DAY
    ensures Encodes(t, timezone, date, time, centisec)
  {
    hide DaysBeforeMonth, DaysBeforeYear, MonthLength, Stores, Cut;
    var shift := EPOCH_DIFF + timezone;
    var unixTime := t;
    if unixTime < shift {
      unixTime := shift;
    }
    unixTime := unixTime - shift;
    var days := unixTime / DAY;
    var year := 4 * days / (4 * 365 + 1);
    YearOf(days);
    YearsClosed(year);
    days := days - (year * 365 + ((1980 + year - 1) / 4 - (1980 - 1) / 4));
    MonthsClosed(year, 13);
    MonthsClosed(year, 1);
    var month := 0;
    var i := 1;
    while i <= 12
      invariant month == 0 && 1 <= i <= 12
      invariant DaysBeforeMonth(year, i) <= days < DaysBeforeMonth(year, 13)
      invariant days == unixTime / DAY - DaysBeforeYear(year)
    {
      var leapDay := if (1980 + year) % 4 == 0 && i == 2 then 1 else 0;
      var leapSub := if (1980 + year) % 4 == 0 && i >= 3 then 1 else 0;
      MonthsClosed(year, i);
      MonthsClosed(year, i + 1);
      NextMonth(year, i);
      if i == 12 || days - leapSub < Table(i + 1) + leapDay {
        month := i;
        days := days - (Table(i) + leapSub);
        break;
      }
      i := i + 1;
    }
    var day := days + 1;
    var hour := unixTime % DAY / HOUR;
    var min := unixTime % HOUR / MINUTE;
    var twosec := unixTime % MINUTE / 2;
    Packs(year, month, day, unixTime);
    date := (day + month * 32 + year * 512) % 0x1_0000;
    time := twosec + min * 32 + hour * 2048;
    centisec := unixTime % 2 * 100;
  }

  function PackedDate(year: nat, month: nat, day: nat): nat {
    day + month * 32 + year * 512
  }

  function PackedTime(u: nat): nat {
    u % MINUTE / 2 + u % HOUR / MINUTE * 32 + u % DAY / HOUR * 2048
  }

  /** The last lines of the encoding put the right fields in the right places. */
  lemma Packed(year: nat, month: nat, day: nat, u: nat)
    requires year < 128 && 1 <= month <= 12 && 1 <= day <= MonthLength(year, month)
    requires u / DAY == DaysBeforeYear(year) + DaysBeforeMonth(year, month) + day - 1
    ensures Stores(PackedDate(year, month, day), PackedTime(u), u % 2 * 100, u)
    ensures PackedDate(year, month, day) < 0x1_0000 && PackedTime(u) < 0x1_0000
  {
    hide DaysBeforeMonth, DaysBeforeYear;
    DatePacked(year, month, day);
    TimePacked(u % MINUTE, u % HOUR / MINUTE, u % DAY / HOUR);
    DayHours(u);
    HourMinutes(u);
    var date, time, centisec: nat := PackedDate(year, month, day), PackedTime(u), u % 2 * 100;
    assert Unpacked(date, time, centisec) == Stamp(year, month, day, u % DAY / HOUR, u % HOUR / MINUTE, u % MINUTE);
  }

  /** The second of the 128 years that the format can tell apart. */
  function Cut(u: nat): nat {
    u % (RANGE_DAYS * DAY)
  }

  /** With the year cut to 7 bits the fields still name a second: 128 years on, the calendar repeats itself. */
  lemma Packs(year: nat, month: nat, day: nat, u: nat)
    requires 1 <= month <= 12 && 1 <= day <= MonthLength(year, month)
    requires u / DAY == DaysBeforeYear(year) + DaysBeforeMonth(year, month) + day - 1
    ensures var date := (day + month * 32 + year * 512) % 0x1_0000;
            date < 0x1_0000 && PackedTime(u) < 0x1_0000 && Stores(date, PackedTime(u), u % 2 * 100, Cut(u))
  {
    hide DaysBeforeMonth, DaysBeforeYear, Stores, Cut, PackedTime, PackedDate;
    CutMonth(year, month);
    CutYear(year);
    NextMonth(year % 128, month);
    MonthsGrow(year % 128, month, 13);
    YearsGrow(year % 128, 128);
    YearsClosed(128);
    CutTime(u, year / 128, DaysBeforeYear(year % 128) + DaysBeforeMonth(year % 128, month) + day - 1);
    CutDate(year, month, day);
    Packed(year % 128, month, day, Cut(u));
  }

  lemma CutMonth(year: nat, month: nat)
    requires 1 <= month <= 12
    ensures MonthLength(year % 128, month) == MonthLength(year, month)
    ensures DaysBeforeMonth(year % 128, month) == DaysBeforeMonth(year, month)
  {
    hide DaysBeforeMonth;
    MonthsClosed(year, month);
    MonthsClosed(year % 128, month);
  }

  lemma CutYear(year: nat)
    ensures DaysBeforeYear(year) == year / 128 * RANGE_DAYS + DaysBeforeYear(year % 128)
  {
    hide DaysBeforeYear;
    YearsClosed(year);
    YearsClosed(year % 128);
  }

  lemma CutDate(year: nat, month: nat, day: nat)
    requires 1 <= month <= 12 && day < 32
    ensures (day + month * 32 + year * 512) % 0x1_0000 == PackedDate(year % 128, month, day)
  {
    var q, r := year / 128, year % 128;
    assert day + month * 32 + year * 512 == q * 0x1_0000 + PackedDate(r, month, day);
    Digits(q, PackedDate(r, month, day), 0x1_0000);
  }

  /** Whole days, hours and minutes fit into the 128 years. */
  lemma CutTime(u: nat, q: nat, d: nat)
    requires u / DAY == q * RANGE_DAYS + d && d < RANGE_DAYS
    ensures Cut(u) / DAY == d && PackedTime(Cut(u)) == PackedTime(u) && Cut(u) % 2 == u % 2
  {
    Nested(q, d, u % DAY, RANGE_DAYS, DAY);
    Digits(q, d * DAY + u % DAY, RANGE_DAYS * DAY);
    Digits(d, u % DAY, DAY);
    WithinDay(u, Cut(u));
  }

  lemma Nested(q: nat, d: nat, r: nat, n: nat, m: nat)
    requires d < n && r < m
    ensures (q * n + d) * m + r == q * (n * m) + (d * m + r) && d * m + r < n * m
  {
    assert (q * n + d) * m == q * n * m + d * m;
    assert d * m + m == (d + 1) * m <= n * m;
  }

  /** The time of day decides the fields. */
  lemma WithinDay(u: nat, v: nat)
    requires u % DAY == v % DAY
    ensures PackedTime(u) == PackedTime(v) && u % 2 == v % 2
  {
    Multiple(u / DAY * 24, u % DAY, HOUR);
    Multiple(v / DAY * 24, v % DAY, HOUR);
    Multiple(u / DAY * 1440, u % DAY, MINUTE);
    Multiple(v / DAY * 1440, v % DAY, MINUTE);
    Multiple(u / DAY * 43200, u % DAY, 2);
    Multiple(v / DAY * 43200, v % DAY, 2);
  }

  lemma Multiple(q: nat, r: nat, m: nat)
    requires m > 0
    ensures (q * m + r) % m == r % m
  {
    assert q * m + r == (q + r / m) * m + r % m;
    Digits(q + r / m, r % m, m);
  }

  lemma DatePacked(year: nat, month: nat, day: nat)
    requires month < 16 && day < 32
    ensures var date := day + month * 32 + year * 512;
            date / 512 == year && date / 32 % 16 == month && date % 32 == day
  {
    Digits(year, day + month * 32, 512);
    Digits(month + year * 16, day, 32);
    Digits(year, month, 16);
  }

  lemma TimePacked(second: nat, minute: nat, hour: nat)
    requires second < 60 && minute < 60 && hour < 24
    ensures var time := second / 2 + minute * 32 + hour * 2048;
            time / 2048 == hour && time / 32 % 64 == minute && time % 32 == second / 2 < 30 && time < 0x1_0000
  {
    Digits(hour, second / 2 + minute * 32, 2048);
    Digits(minute + hour * 64, second / 2, 32);
    Digits(hour, minute, 64);
  }

  lemma Digits(q: nat, r: nat, m: nat)
    requires r < m
    ensures (q * m + r) / m == q && (q * m + r) % m == r
  {
    Content.QuotientOf(q, r, m);
  }

  lemma DayHours(u: nat)
    ensures u == u / DAY * DAY + u % DAY / HOUR * HOUR + u % HOUR && u % DAY / HOUR < 24
  {
    var day, hour, rest: nat := u / DAY, u % DAY / HOUR, u % DAY % HOUR;
    assert u == (day * 24 + hour) * HOUR + rest;
    Digits(day * 24 + hour, rest, HOUR);
  }

  lemma HourMinutes(u: nat)
    ensures u % HOUR == u % HOUR / MINUTE * MINUTE + u % MINUTE && u % HOUR / MINUTE < 60
    ensures u % MINUTE / 2 * 2 + u % 2 == u % MINUTE
  {
    var hour, minute, second: nat := u / HOUR, u % HOUR / MINUTE, u % HOUR % MINUTE;
    assert u == (hour * 60 + minute) * MINUTE + second;
    Digits(hour * 60 + minute, second, MINUTE);
    assert u == ((hour * 60 + minute) * 30 + second / 2) * 2 + second % 2;
    Digits((hour * 60 + minute) * 30 + second / 2, second % 2, 2);
  }

  lemma NextMonth(year: nat, month: nat)
    requires 1 <= month <= 12
    ensures DaysBeforeMonth(year, month + 1) == DaysBeforeMonth(year, month) + MonthLength(year, month)
  {
  }

  // --- both directions ---

  /** A word is its fields. */
  lemma WordFields(w: nat, low: nat, high: nat)
    requires low > 0 && high > 0
    ensures w == (w / low / high * high + w / low % high) * low + w % low && w / low % high < high && w % low < low
  {
    var q := w / low;
    assert w == q * low + w % low && q == q / high * high + q % high;
  }

  lemma DateFields(date: nat)
    ensures date == date / 512 * 512 + date / 32 % 16 * 32 + date % 32
  {
    WordFields(date, 32, 16);
    Digits(date / 32 / 16, date / 32 % 16 * 32 + date % 32, 512);
  }

  lemma TimeFields(time: nat)
    ensures time == time / 2048 * 2048 + time / 32 % 64 * 32 + time % 32
  {
    WordFields(time, 32, 64);
    Digits(time / 32 / 64, time / 32 % 64 * 32 + time % 32, 2048);
  }

  /** What is stored for a time is settled: no two stamps of the form written stand for the same one. */
  lemma StoredOnce(date: nat, time: nat, centisec: nat, date': nat, time': nat, centisec': nat, u: int)
    requires Stores(date, time, centisec, u) && Stores(date', time', centisec', u)
    ensures date == date' && time == time' && centisec == centisec'
  {
    hide Seconds, MonthLength;
    var s, s' := Unpacked(date, time, centisec), Unpacked(date', time', centisec');
    Ordered(s, s');
    Ordered(s', s);
    assert s == s';
    DateFields(date);
    DateFields(date');
    TimeFields(time);
    TimeFields(time');
    OddSecond(time, centisec);
    OddSecond(time', centisec');
  }

  lemma OddSecond(time: nat, centisec: nat)
    requires centisec < 200
    ensures var second := time % 32 * 2 + centisec / 100;
            && time % 32 == second / 2 && centisec / 100 == second % 2
            && (centisec % 100 == 0 ==> centisec == second % 2 * 100)
  {
  }

  /** A time goes through the disk unchanged, in every timezone, if and only if it lies in the 46752 days; one before
      them comes back as the start of 1980, a later one as many times 128 years too early. */
  lemma RoundTripTime(t: int, timezone: int, date: u16, time: u16, centisec: u8)
    requires Encodes(t, timezone, date, time, centisec)
    ensures var shift, range := EPOCH_DIFF + timezone, RANGE_DAYS * DAY;
            && (Decoded(date, time, centisec, timezone) == t <==> shift <= t < shift + range)
            && (t < shift ==> Decoded(date, time, centisec, timezone) == shift)
            && (t >= shift ==> Decoded(date, time, centisec, timezone) == t - (t - shift) / range * range)
  {
    hide Seconds, MonthLength;
  }

  /** A date of the calendar goes through memory unchanged but for its centiseconds, rounded down to whole seconds:
      encoding what it decodes to can store nothing else. */
  lemma RoundTripStamp(date: u16, time: u16, centisec: u8, timezone: int, date': u16, time': u16, centisec': u8)
    requires Accepted(date, time, centisec) && Real(Unpacked(date, time, centisec))
    requires Encodes(Decoded(date, time, centisec, timezone), timezone, date', time', centisec')
    ensures date' == date && time' == time && centisec' == centisec / 100 * 100
  {
    hide Seconds, MonthLength;
    SecondsInRange(Unpacked(date, time, centisec));
    var whole: nat := centisec / 100 * 100;
    assert whole / 100 == centisec / 100;
    assert Unpacked(date, time, whole) == Unpacked(date, time, centisec);
    StoredOnce(date, time, whole, date', time', centisec', Seconds(Unpacked(date, time, centisec)));
  }

  /** Decoding follows the calendar: a later date, time or odd second is a later time. */
  lemma DecodedInOrder(date: u16, time: u16, centisec: u8, date': u16, time': u16, centisec': u8, timezone: int)
    requires Accepted(date, time, centisec) && Real(Unpacked(date, time, centisec))
    requires Accepted(date', time', centisec') && Real(Unpacked(date', time', centisec'))
    ensures Decoded(date, time, centisec, timezone) < Decoded(date', time', centisec', timezone)
            <==> date < date' || (date == date' && (time < time'
                                 || (time == time' && centisec / 100 < centisec' / 100)))
  {
    hide Seconds, MonthLength;
    var s, s' := Unpacked(date, time, centisec), Unpacked(date', time', centisec');
    Ordered(s, s');
    FieldsInOrder(date, time, centisec, date', time', centisec');
  }

  lemma FieldsInOrder(date: nat, time: nat, centisec: nat, date': nat, time': nat, centisec': nat)
    requires Accepted(date, time, centisec) && Accepted(date', time', centisec')
    ensures Before(Unpacked(date, time, centisec), Unpacked(date', time', centisec'))
            <==> date < date' || (date == date' && (time < time'
                                 || (time == time' && centisec / 100 < centisec' / 100)))
  {
    DateFields(date);
    DateFields(date');
    TimeFields(time);
    TimeFields(time');
    OddSecond(time, centisec);
    OddSecond(time', centisec');
    var s, s' := Unpacked(date, time, centisec), Unpacked(date', time', centisec');
    Lexicographic(s.year, s.month, s.day, 512, 32, s'.year, s'.month, s'.day);
    Lexicographic(s.hour, s.minute, time % 32, 2048, 32, s'.hour, s'.minute, time' % 32);
  }

  lemma Lexicographic(a: nat, b: nat, c: nat, high: nat, low: nat, a': nat, b': nat, c': nat)
    requires (high == 512 && low == 32 && b < 16 && b' < 16) || (high == 2048 && low == 32 && b < 64 && b' < 64)
    requires c < 32 && c' < 32
    ensures a * high + b * low + c < a' * high + b' * low + c'
            <==> a < a' || (a == a' && (b < b' || (b == b' && c < c')))
    ensures a * high + b * low + c == a' * high + b' * low + c' <==> a == a' && b == b' && c == c'
  {
  }

  /** Nothing on the calendar of the disk stands for a time beyond the 46752 days, so the bound on what can be
      encoded is the format's own. */
  lemma BeyondRange(t: int, timezone: int, date: u16, time: u16, centisec: u8)
    requires t < EPOCH_DIFF + timezone || t >= EPOCH_DIFF + timezone + RANGE_DAYS * DAY
    requires Accepted(date, time, centisec) && Real(Unpacked(date, time, centisec))
    ensures Decoded(date, time, centisec, timezone) != t
  {
    hide Seconds, MonthLength;
    SecondsInRange(Unpacked(date, time, centisec));
  }

  // --- against the calendar since 1970 ---

  predicate LeapYear(y: nat) {
    y % 4 == 0 && (y % 100 != 0 || y % 400 == 0)
  }

  /** Days from 1 January 1970 to the first day of a year, year by year. */
  function DaysToYear(y: nat): nat
    requires y >= 1970
  {
    if y == 1970 then 0 else DaysToYear(y - 1) + if LeapYear(y - 1) then 366 else 365
  }

  /** Days from the first day of a year to that of a month. */
  function DaysToMonth(y: nat, m: nat): nat
    requires 1 <= m <= 12
  {
    if m == 1 then 0
    else DaysToMonth(y, m - 1) + [31, if LeapYear(y) then 29 else 28, 31, 30, 31, 30, 31, 31, 30, 31, 30, 31][m - 2]
  }

  /** Seconds from the start of 1970 to a date and a time of day. */
  function SecondsTo(y: nat, m: nat, d: nat, hour: nat, minute: nat, second: nat): int
    requires y >= 1970 && 1 <= m <= 12
  {
    86400 * (DaysToYear(y) + DaysToMonth(y, m) + d - 1) + 3600 * hour + 60 * minute + second
  }

  /** The day that the source counts too many from March 2100 on. */
  function Surplus(y: nat, m: nat): nat {
    if y > 2100 || (y == 2100 && m >= 3) then 86400 else 0
  }

  lemma {:induction false} YearsSince1970(year: nat)
    ensures DaysToYear(1980 + year) == 3652 + GregorianBeforeYear(year)
  {
    hide GregorianBeforeMonth;
    if year == 0 {
      Nineteen80();
    } else {
      YearsSince1970(year - 1);
      YearLength(year - 1);
    }
  }

  lemma Nineteen80()
    ensures DaysToYear(1980) == 3652
  {
    assert DaysToYear(1971) == 365;
    assert DaysToYear(1972) == 730;
    assert DaysToYear(1973) == 1096;
    assert DaysToYear(1974) == 1461;
    assert DaysToYear(1975) == 1826;
    assert DaysToYear(1976) == 2191;
    assert DaysToYear(1977) == 2557;
    assert DaysToYear(1978) == 2922;
    assert DaysToYear(1979) == 3287;
  }

  lemma YearLength(year: nat)
    ensures GregorianBeforeMonth(year, 13) == if LeapYear(1980 + year) then 366 else 365
  {
    GregorianMonths(year, 13);
  }

  lemma {:induction false} GregorianMonths(year: nat, month: nat)
    requires 1 <= month <= 13
    ensures GregorianBeforeMonth(year, month) == Table(month) + if GregorianLeap(year) && month > 2 then 1 else 0
  {
    if month > 1 {
      GregorianMonths(year, month - 1);
    }
  }

  lemma {:induction false} MonthsSince(year: nat, month: nat)
    requires 1 <= month <= 12
    ensures DaysToMonth(1980 + year, month) == GregorianBeforeMonth(year, month)
  {
    if month > 1 {
      MonthsSince(year, month - 1);
    }
  }

  /** A stored stamp is accepted if its fields are in range, and then stands for the seconds since 1970 of its date and
      time, brought to the timezone, and from March 2100 on a day more; any other stands for zero. */
  lemma UnixSeconds(date: u16, time: u16, centisec: u8, timezone: int)
    ensures var y, m, d := 1980 + date / 512, date / 32 % 16, date % 32;
            var hour, minute, second := time / 2048, time / 32 % 64, time % 32 * 2 + centisec / 100;
            Decoded(date, time, centisec, timezone)
            == if 1 <= m <= 12 && d > 0 && hour < 24 && minute < 60 && time % 32 < 30 && centisec < 200 then
                 timezone + SecondsTo(y, m, d, hour, minute, second) + Surplus(y, m)
               else 0
  {
    hide DaysBeforeMonth, DaysBeforeYear, GregorianBeforeMonth, GregorianBeforeYear, DaysToYear, DaysToMonth;
    var s := Unpacked(date, time, centisec);
    if Accepted(date, time, centisec) {
      GregorianUntil2100(s);
      YearsSince1970(s.year);
      MonthsSince(s.year, s.month);
    }
  }

  /** What is written for a time of the 128 years is a date and time of the calendar that stands for it, by the same
      count; for an earlier time it is the start of 1980. */
  lemma UnixSecondsBack(t: int, timezone: int, date: u16, time: u16, centisec: u8)
    requires Encodes(t, timezone, date, time, centisec) && t < timezone + 86400 * (3652 + 46752)
    ensures var y, m, d := 1980 + date / 512, date / 32 % 16, date % 32;
            && 1 <= m <= 12 && d > 0 && time / 2048 < 24 && time / 32 % 64 < 60 && time % 32 < 30
            && (centisec == 0 || centisec == 100)
            && (t >= timezone + 86400 * 3652 ==>
                  t == timezone + Surplus(y, m)
                       + SecondsTo(y, m, d, time / 2048, time / 32 % 64, time % 32 * 2 + centisec / 100))
            && (t < timezone + 86400 * 3652 ==> date == 0x21 && time == 0 && centisec == 0)
  {
    hide Stores, Accepted, Kept, SecondsTo, Surplus, Decoded;
    RoundTripTime(t, timezone, date, time, centisec);
    UnixSeconds(date, time, centisec, timezone);
    StoredFields(date, time, centisec, Kept(t, timezone));
    if t < timezone + 86400 * 3652 {
      KeptBefore(t, timezone);
      FirstStamp(0x21, 0, 0);
      StoredOnce(0x21, 0, 0, date, time, centisec, 0);
    }
  }

  lemma StoredFields(date: nat, time: nat, centisec: nat, u: int)
    requires Stores(date, time, centisec, u)
    ensures 1 <= date / 32 % 16 <= 12 && date % 32 > 0 && time / 2048 < 24 && time / 32 % 64 < 60 && time % 32 < 30
    ensures centisec == 0 || centisec == 100
  {
    hide Seconds, MonthLength;
  }

  lemma KeptBefore(t: int, timezone: int)
    requires t < timezone + 86400 * 3652
    ensures Kept(t, timezone) == 0
  {
  }

  lemma FirstStamp(date: nat, time: nat, centisec: nat)
    requires date == 0x21 && time == 0 && centisec == 0
    ensures Stores(date, time, centisec, 0)
  {
    hide Seconds, Real, MonthLength;
    var s := Unpacked(date, time, centisec);
    assert s.year == 0 && s.month == 1 && s.day == 1 && s.hour == 0 && s.minute == 0 && s.second == 0;
    FirstSecond(s);
  }

  lemma FirstSecond(s: Stamp)
    requires s.year == 0 && s.month == 1 && s.day == 1 && s.hour == 0 && s.minute == 0 && s.second == 0
    ensures Real(s) && Seconds(s) == 0
  {
    hide DaysBeforeMonth, DaysBeforeYear;
    YearsClosed(s.year);
    MonthsClosed(s.year, s.month);
  }
}
