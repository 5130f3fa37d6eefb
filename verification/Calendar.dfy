/** The calendar: the closed form that turns the clock chip's date into seconds (kernel/drivers/rtc.c) against the
    counting loops that turn seconds back into a date (user/date.c). */
module Calendar {

  /** isleap. */
  predicate Leap(y: int) {
    (y % 4 == 0 && y % 100 != 0) || y % 400 == 0
  }

  function YearLen(y: int): nat { if Leap(y) then 366 else 365 }

  function MonthLen(y: int, m: int): nat {
    if m == 2 then (if Leap(y) then 29 else 28)
    else if m == 4 || m == 6 || m == 9 || m == 11 then 30
    else 31
  }

  /** Days from 1970-01-01 to the first of January of `y`, counted year by year. */
  function YearStart(y: int): nat
    requires y >= 1970
  {
    if y == 1970 then 0 else YearStart(y - 1) + YearLen(y - 1)
  }

  /** Days from the first of January to the first of month `m`, counted month by month. */
  function MonthStart(y: int, m: int): nat
    requires 1 <= m <= 13
  {
    if m == 1 then 0 else MonthStart(y, m - 1) + MonthLen(y, m - 1)
  }

  predicate ValidDate(y: int, m: int, d: int) {
    y >= 1970 && 1 <= m <= 12 && 1 <= d <= MonthLen(y, m)
  }

  predicate ValidTime(h: int, mi: int, s: int) {
    0 <= h < 24 && 0 <= mi < 60 && 0 <= s < 60
  }

  /** Days from 1970-01-01 to a date, by counting: what a day number means. */
  function DayNumber(y: int, m: int, d: int): int
    requires y >= 1970 && 1 <= m <= 12
  {
    YearStart(y) + MonthStart(y, m) + d - 1
  }

  function Seconds(y: int, m: int, d: int, h: int, mi: int, s: int): int
    requires y >= 1970 && 1 <= m <= 12
  {
    DayNumber(y, m, d) * 86400 + h * 3600 + mi * 60 + s
  }

  // ------------------------------------------------------------ the closed form

  /** Division in C, which truncates. */
  function Div(a: int, b: int): int
    requires b > 0
  {
    if a >= 0 then a / b else -((-a) / b)
  }

  /** days_from_civil. */
  function DaysFromCivil(y0: int, m: int, d: int): int {
    var y := if m <= 2 then y0 - 1 else y0;
    var era := Div(if y >= 0 then y else y - 399, 400);
    var yoe := y - era * 400;
    var doy := Div(153 * (m + (if m > 2 then -3 else 9)) + 2, 5) + d - 1;
    var doe := yoe * 365 + Div(yoe, 4) - Div(yoe, 100) + doy;
    era * 146097 + doe - 719468
  }

  /** Days from 0000-03-01 to the first of March of `y`. */
  function March(y: int): int {
    365 * y + y / 4 - y / 100 + y / 400
  }

  lemma Fours(y: int)
    ensures y / 4 == (y - 1) / 4 + if y % 4 == 0 then 1 else 0
  {
  }

  lemma Hundreds(y: int)
    ensures y / 100 == (y - 1) / 100 + (if y % 100 == 0 then 1 else 0) && (y % 100 == 0 ==> y % 4 == 0)
  {
  }

  lemma FourHundreds(y: int)
    ensures y / 400 == (y - 1) / 400 + (if y % 400 == 0 then 1 else 0) && (y % 400 == 0 ==> y % 100 == 0)
  {
  }

  lemma MarchStep(y: int)
    ensures March(y) == March(y - 1) + YearLen(y)
  {
    Fours(y);
    Hundreds(y);
    FourHundreds(y);
  }

  lemma {:induction false} YearStartIs(y: int)
    requires y >= 1970
    ensures YearStart(y) == March(y - 1) + 306 - 719468
  {
    if y > 1970 {
      YearStartIs(y - 1);
      MarchStep(y - 1);
    }
  }

  /** The four-hundred-year split of the closed form is the sum of the leap year rules. */
  lemma EraSplit(y: int)
    requires y >= 0
    ensures var era := y / 400; var yoe := y - era * 400;
      0 <= yoe < 400 && era * 146097 + yoe * 365 + yoe / 4 - yoe / 100 == March(y)
  {
    var era := y / 400;
    var yoe := y - era * 400;
    assert y == 400 * era + yoe;
    assert y / 4 == 100 * era + yoe / 4;
    assert y / 100 == 4 * era + yoe / 100;
  }

  lemma MonthStarts(y: int, m: int)
    requires 1 <= m <= 12
    ensures MonthStart(y, m) == (if m == 1 then 0
        else if m == 2 then 31 else (153 * (m - 3) + 2) / 5 + 59 + if Leap(y) then 1 else 0)
    ensures m <= 2 ==> (153 * (m + 9) + 2) / 5 == 306 + MonthStart(y, m)
  {
    var f := MonthLen(y, 2);
    assert MonthStart(y, 2) == 31 && MonthStart(y, 3) == 31 + f;
    assert MonthStart(y, 4) == 62 + f && MonthStart(y, 5) == 92 + f && MonthStart(y, 6) == 123 + f;
    assert MonthStart(y, 7) == 153 + f && MonthStart(y, 8) == 184 + f && MonthStart(y, 9) == 215 + f;
    assert MonthStart(y, 10) == 245 + f && MonthStart(y, 11) == 276 + f && MonthStart(y, 12) == 306 + f;
  }

  /** The closed form counts days: for every date from 1970 on it is the day number. */
  lemma ClosedForm(y: int, m: int, d: int)
    requires y >= 1970 && 1 <= m <= 12
    ensures DaysFromCivil(y, m, d) == DayNumber(y, m, d)
  {
    YearStartIs(y);
    MonthStarts(y, m);
    if m <= 2 {
      EraSplit(y - 1);
    } else {
      EraSplit(y);
      MarchStep(y);
    }
  }

  // ------------------------------------------------------------ the counting loops

  /** date's loop over years: the year a day number falls in, and the days left in it. */
  method YearOf(days0: nat) returns (y: int, days: nat)
    ensures y >= 1970 && YearStart(y) + days == days0 && days < YearLen(y)
  {
    y, days := 1970, days0;
    while true
      invariant y >= 1970 && YearStart(y) + days == days0
      decreases days
    {
      var dy := if Leap(y) then 366 else 365;
      if days >= dy {
        days := days - dy;
        y := y + 1;
      } else {
        break;
      }
    }
  }

  /** date's loop over months. */
  method MonthOf(y: int, days0: nat) returns (m: int, d: int)
    requires days0 < YearLen(y)
    ensures 1 <= m <= 12 && 1 <= d <= MonthLen(y, m) && MonthStart(y, m) + d - 1 == days0
  {
    var md := [31, if Leap(y) then 29 else 28, 31, 30, 31, 30, 31, 31, 30, 31, 30, 31];
    var mon, days := 0, days0;
    MonthStarts(y, 12);
    while mon < 12 && days >= md[mon]
      invariant 0 <= mon <= 12 && days >= 0 && MonthStart(y, mon + 1) + days == days0
    {
      assert md[mon] == MonthLen(y, mon + 1);
      days := days - md[mon];
      mon := mon + 1;
    }
    assert mon < 12 ==> md[mon] == MonthLen(y, mon + 1);
    m, d := mon + 1, days + 1;
  }

  /** date: from seconds to a date and a time of day. A negative clock counts as zero. */
  method Date(secs0: int) returns (y: int, m: int, d: int, h: int, mi: int, s: int)
    ensures ValidDate(y, m, d) && ValidTime(h, mi, s)
    ensures Seconds(y, m, d, h, mi, s) == if secs0 < 0 then 0 else secs0
  {
    var secs := if secs0 < 0 then 0 else secs0;
    var days, rem := secs / 86400, secs % 86400;
    h, mi, s := rem / 3600, rem % 3600 / 60, rem % 60;
    var left;
    y, left := YearOf(days);
    m, d := MonthOf(y, left);
    assert secs == days * 86400 + rem && rem == h * 3600 + mi * 60 + s;
  }

  lemma {:induction false} YearsApart(y: int, z: int)
    requires 1970 <= y < z
    ensures YearStart(y) + YearLen(y) <= YearStart(z)
    decreases z
  {
    if y < z - 1 { YearsApart(y, z - 1); }
  }

  lemma {:induction false} MonthsApart(y: int, m: int, n: int)
    requires 1 <= m < n <= 13
    ensures MonthStart(y, m) + MonthLen(y, m) <= MonthStart(y, n)
    decreases n
  {
    if m < n - 1 { MonthsApart(y, m, n - 1); }
  }

  lemma InYear(y: int, m: int, d: int)
    requires ValidDate(y, m, d)
    ensures 0 <= MonthStart(y, m) + d - 1 < YearLen(y)
  {
    MonthsApart(y, m, 13);
    MonthStarts(y, 12);
  }

  /** No two dates have the same number. */
  lemma OneDate(y: int, m: int, d: int, y': int, m': int, d': int)
    requires ValidDate(y, m, d) && ValidDate(y', m', d') && DayNumber(y, m, d) == DayNumber(y', m', d')
    ensures y == y' && m == m' && d == d'
  {
    InYear(y, m, d);
    InYear(y', m', d');
    if y < y' { YearsApart(y, y'); } else if y' < y { YearsApart(y', y); }
    if m < m' { MonthsApart(y, m, m'); } else if m' < m { MonthsApart(y, m', m); }
  }

  lemma OneTime(n: int, h: int, mi: int, s: int, n': int, h': int, mi': int, s': int)
    requires ValidTime(h, mi, s) && ValidTime(h', mi', s') &&
        n * 86400 + h * 3600 + mi * 60 + s == n' * 86400 + h' * 3600 + mi' * 60 + s'
    ensures n == n' && h == h' && mi == mi' && s == s'
  {
  }

  /** For every date from 1970 on and every time of day, date prints back what the clock was set to. */
  method RoundTrip(y: int, m: int, d: int, h: int, mi: int, s: int)
      returns (y': int, m': int, d': int, h': int, mi': int, s': int)
    requires ValidDate(y, m, d) && ValidTime(h, mi, s)
    ensures y' == y && m' == m && d' == d && h' == h && mi' == mi && s' == s
  {
    ClosedForm(y, m, d);
    InYear(y, m, d);
    var n := DaysFromCivil(y, m, d) * 86400 + h * 3600 + mi * 60 + s;
    y', m', d', h', mi', s' := Date(n);
    OneTime(DayNumber(y, m, d), h, mi, s, DayNumber(y', m', d'), h', mi', s');
    OneDate(y, m, d, y', m', d');
  }

  // ------------------------------------------------------------ seconds since the Epoch

  lemma YearsCounted(y: int)
    requires y >= 1970
    ensures YearStart(y) == (y - 1970) * 365 + (y - 1969) / 4 - (y - 1901) / 100 + (y - 1601) / 400
  {
    YearStartIs(y);
    var z := y - 1;
    assert (z - 1968) / 4 == z / 4 - 492;
    assert (z - 1900) / 100 == z / 100 - 19;
    assert (z - 1600) / 400 == z / 400 - 4;
  }

  /** The expression of section 4.16 of POSIX.1-2017, Base Definitions, in broken-down time. */
  function Posix(year: int, yday: int, h: int, mi: int, s: int): int {
    s + mi * 60 + h * 3600 + yday * 86400 + (year - 70) * 31536000
      + ((year - 69) / 4) * 86400 - ((year - 1) / 100) * 86400 + ((year + 299) / 400) * 86400
  }

  lemma IsPosix(y: int, m: int, d: int, h: int, mi: int, s: int)
    requires y >= 1970 && 1 <= m <= 12
    ensures DaysFromCivil(y, m, d) * 86400 + h * 3600 + mi * 60 + s ==
        Posix(y - 1900, MonthStart(y, m) + d - 1, h, mi, s)
  {
    ClosedForm(y, m, d);
    YearsCounted(y);
  }

  // ------------------------------------------------------------ the clock chip's registers

  type Reg = x: int | 0 <= x < 256

  /** Time registers, and whether register B says binary values and a 24-hour clock. */
  datatype Clock = Clock(sec: Reg, min: Reg, hour: Reg, day: Reg, mon: Reg, year: Reg, binary: bool, h24: bool)

  function Bcd(v: Reg): Reg { (v % 16 + v / 16 * 10) % 256 }

  function Unpacked(c: Clock, v: Reg): Reg { if c.binary then v else Bcd(v) }

  /** The low seven bits of a register. */
  function Low(v: Reg): Reg { if v >= 128 then v - 128 else v }

  /** The digits of the hour with the PM flag: kept in place, or folded in for a 12-hour clock. */
  function Folded(digits: Reg, pm: bool, h24: bool): Reg {
    var h := Low(digits);
    if h24 then (if pm then h + 128 else digits)
    else if pm && h != 12 then h + 12
    else if !pm && h == 12 then 0
    else h
  }

  /** The hour: the flag is kept aside while the digits are unpacked. */
  function Hour(c: Clock): Reg {
    Folded(Unpacked(c, Low(c.hour)), c.hour >= 128, c.h24)
  }

  /** rtc_read_epoch once two readings agree. */
  function Epoch(c: Clock): int {
    var mon, day := Unpacked(c, c.mon), Unpacked(c, c.day);
    DaysFromCivil(2000 + Unpacked(c, c.year), if mon != 0 then mon else 1, if day != 0 then day else 1) * 86400
      + Hour(c) * 3600 + Unpacked(c, c.min) * 60 + Unpacked(c, c.sec)
  }

  /** How a clock chip shows a number below 100, and an hour. */
  function Pack(binary: bool, n: int): Reg
    requires 0 <= n < 100
  {
    if binary then n else n / 10 * 16 + n % 10
  }

  /** The hour on a 12-hour clock. */
  function Twelve(h: int): (t: int)
    requires 0 <= h < 24
    ensures 1 <= t <= 12
  {
    if h == 0 then 12 else if h <= 12 then h else h - 12
  }

  function PackHour(binary: bool, h24: bool, h: int): Reg
    requires 0 <= h < 24
  {
    if h24 then Pack(binary, h)
    else Pack(binary, Twelve(h)) + if h >= 12 then 128 else 0
  }

  /** In every mode of the chip, the epoch is the number of seconds of the time it shows. */
  lemma ClockRead(y: int, m: int, d: int, h: int, mi: int, s: int, binary: bool, h24: bool)
    requires 2000 <= y < 2100 && ValidDate(y, m, d) && ValidTime(h, mi, s)
    ensures Epoch(Clock(Pack(binary, s), Pack(binary, mi), PackHour(binary, h24, h), Pack(binary, d), Pack(binary, m),
        Pack(binary, y - 2000), binary, h24))
      == Seconds(y, m, d, h, mi, s)
  {
    var c := Clock(Pack(binary, s), Pack(binary, mi), PackHour(binary, h24, h), Pack(binary, d), Pack(binary, m),
        Pack(binary, y - 2000), binary, h24);
    Repacked(c, s);
    Repacked(c, mi);
    Repacked(c, d);
    Repacked(c, m);
    Repacked(c, y - 2000);
    HourRead(c, h);
    ClosedForm(y, m, d);
  }

  lemma Repacked(c: Clock, n: int)
    requires 0 <= n < 100
    ensures Unpacked(c, Pack(c.binary, n)) == n
  {
    var t, u := n / 10, n % 10;
    assert (t * 16 + u) % 16 == u && (t * 16 + u) / 16 == t;
  }

  lemma HourRead(c: Clock, h: int)
    requires 0 <= h < 24 && c.hour == PackHour(c.binary, c.h24, h)
    ensures Hour(c) == h
  {
    if c.h24 {
      Repacked(c, h);
      SmallPack(c.binary, h);
    } else {
      Repacked(c, Twelve(h));
      SmallPack(c.binary, Twelve(h));
    }
  }

  lemma SmallPack(binary: bool, n: int)
    requires 0 <= n < 24
    ensures Pack(binary, n) < 64
  {
  }
}
