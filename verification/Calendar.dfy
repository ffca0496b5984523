/**
 Day numbers and the Gregorian calendar as in section 21.4.1 of ECMA-262: days are counted from 1 January
 1970, months from 0, and weekdays from 0 for Sunday. Dafny's `/` and `%` with a positive divisor are the
 floor and modulo of that section.
 */
module Calendar {
  import opened Options

  // ----- years -----

  function DayFromYear(y: int): int {
    365 * (y - 1970) + (y - 1969) / 4 - (y - 1901) / 100 + (y - 1601) / 400
  }

  predicate Leap(y: int) {
    y % 4 == 0 && (y % 100 != 0 || y % 400 == 0)
  }

  lemma CountsFours(y: int)
    ensures (y - 1968) / 4 == (y - 1969) / 4 + if y % 4 == 0 then 1 else 0
  {
  }

  lemma CountsHundreds(y: int)
    ensures (y - 1900) / 100 == (y - 1901) / 100 + if y % 100 == 0 then 1 else 0
  {
  }

  lemma CountsFourHundreds(y: int)
    ensures (y - 1600) / 400 == (y - 1601) / 400 + if y % 400 == 0 then 1 else 0
  {
  }

  lemma HundredsAreFours(y: int)
    ensures y % 100 == 0 ==> y % 4 == 0
  {
    if y % 100 == 0 { assert y == 4 * (25 * (y / 100)); }
  }

  lemma FourHundredsAreHundreds(y: int)
    ensures y % 400 == 0 ==> y % 100 == 0
  {
    if y % 400 == 0 { assert y == 100 * (4 * (y / 400)); }
  }

  /** The closed form counts the leap years: each year starts where the one before it ends. */
  lemma YearLength(y: int)
    ensures DayFromYear(y + 1) == DayFromYear(y) + if Leap(y) then 366 else 365
  {
    CountsFours(y);
    CountsHundreds(y);
    CountsFourHundreds(y);
    HundredsAreFours(y);
    FourHundredsAreHundreds(y);
  }

  lemma {:induction false} YearsAreOrdered(y: int, z: int)
    requires y < z
    ensures DayFromYear(y) + 365 <= DayFromYear(z)
    decreases z - y
  {
    YearLength(z - 1);
    if y < z - 1 { YearsAreOrdered(y, z - 1); }
  }

  /** The year that contains a day, looked for from a guess. */
  function YearFrom(day: int, guess: int): (y: int)
    ensures DayFromYear(y) <= day < DayFromYear(y + 1)
    decreases if day < DayFromYear(guess) then DayFromYear(guess) - day else day - DayFromYear(guess)
  {
    YearLength(guess); YearLength(guess - 1);
    if day < DayFromYear(guess) then YearBackwards(day, guess - 1)
    else if day >= DayFromYear(guess + 1) then YearFrom(day, guess + 1)
    else guess
  }

  function YearBackwards(day: int, guess: int): (y: int)
    requires day < DayFromYear(guess + 1)
    ensures DayFromYear(y) <= day < DayFromYear(y + 1)
    decreases DayFromYear(guess + 1) - day
  {
    YearLength(guess);
    if DayFromYear(guess) <= day then guess else YearBackwards(day, guess - 1)
  }

  function YearOf(day: int): (y: int)
    ensures DayFromYear(y) <= day < DayFromYear(y + 1)
  {
    YearFrom(day, 1970 + day / 365)
  }

  lemma YearIsUnique(day: int, y: int)
    requires DayFromYear(y) <= day < DayFromYear(y + 1)
    ensures YearOf(day) == y
  {
    hide YearOf, DayFromYear;
    if YearOf(day) < y { YearsBetween(YearOf(day) + 1, y); }
    if y < YearOf(day) { YearsBetween(y + 1, YearOf(day)); }
  }

  lemma YearsBetween(y: int, z: int)
    requires y <= z
    ensures DayFromYear(y) <= DayFromYear(z)
  {
    if y < z { YearsAreOrdered(y, z); }
  }

  // ----- months and days -----

  function MonthLength(y: int, m: int): (n: int)
    requires 0 <= m < 12
    ensures 28 <= n <= 31
  {
    if m == 1 then (if Leap(y) then 29 else 28)
    else if m == 3 || m == 5 || m == 8 || m == 10 then 30
    else 31
  }

  /** The day within the year on which a month starts; month 12 is the year's end. */
  function MonthStart(y: int, m: int): (n: int)
    requires 0 <= m <= 12
    ensures 28 * m <= n <= 31 * m
  {
    if m == 0 then 0 else MonthStart(y, m - 1) + MonthLength(y, m - 1)
  }

  lemma MonthsFillTheYear(y: int)
    ensures MonthStart(y, 12) == if Leap(y) then 366 else 365
  {
    assert MonthStart(y, 1) == 31;
    assert MonthStart(y, 3) == 62 + MonthLength(y, 1);
    assert MonthStart(y, 5) == 123 + MonthLength(y, 1);
    assert MonthStart(y, 7) == 184 + MonthLength(y, 1);
    assert MonthStart(y, 9) == 245 + MonthLength(y, 1);
    assert MonthStart(y, 11) == 306 + MonthLength(y, 1);
  }

  lemma YearIsItsMonths(y: int)
    ensures DayFromYear(y + 1) == DayFromYear(y) + MonthStart(y, 12)
  {
    hide DayFromYear, MonthStart;
    YearLength(y); MonthsFillTheYear(y);
  }

  lemma {:induction false} MonthsAreOrdered(y: int, m: int, k: int)
    requires 0 <= m < k <= 12
    ensures MonthStart(y, m) + MonthLength(y, m) <= MonthStart(y, k)
  {
    if m < k - 1 { MonthsAreOrdered(y, m, k - 1); }
  }

  function MonthWithin(y: int, dayInYear: int, m: int): (r: int)
    requires 0 <= m < 12 && MonthStart(y, m) <= dayInYear < MonthStart(y, 12)
    ensures 0 <= r < 12 && MonthStart(y, r) <= dayInYear < MonthStart(y, r) + MonthLength(y, r)
    decreases 12 - m
  {
    if dayInYear < MonthStart(y, m) + MonthLength(y, m) then m else MonthWithin(y, dayInYear, m + 1)
  }

  lemma DayWithinItsYear(day: int)
    ensures 0 <= day - DayFromYear(YearOf(day)) < MonthStart(YearOf(day), 12)
  {
    hide DayFromYear, MonthStart, YearOf;
    YearIsItsMonths(YearOf(day));
  }

  function DayInYear(day: int): (n: int)
    ensures 0 <= n < MonthStart(YearOf(day), 12)
  {
    DayWithinItsYear(day);
    day - DayFromYear(YearOf(day))
  }

  function MonthOf(day: int): (m: int)
    ensures 0 <= m < 12
  {
    MonthWithin(YearOf(day), DayInYear(day), 0)
  }

  function DateOf(day: int): (dt: int)
    ensures 1 <= dt <= MonthLength(YearOf(day), MonthOf(day))
  {
    DayInYear(day) - MonthStart(YearOf(day), MonthOf(day)) + 1
  }

  function WeekDay(day: int): (w: int)
    ensures 0 <= w < 7
  {
    (day + 4) % 7
  }

  /** MakeDay: the month may be out of range and carries into the year, the date simply counts days. */
  function MakeDay(y: int, m: int, dt: int): int {
    var (ym, mn) := (y + m / 12, m % 12);
    DayFromYear(ym) + MonthStart(ym, mn) + dt - 1
  }

  lemma DayBySum(day: int)
    ensures day == DayFromYear(YearOf(day)) + MonthStart(YearOf(day), MonthOf(day)) + DateOf(day) - 1
  {
    hide YearOf, MonthOf, DayFromYear, MonthStart, MonthLength;
  }

  /** The three fields of a day give it back. */
  lemma FieldsMakeTheDay(day: int)
    ensures MakeDay(YearOf(day), MonthOf(day), DateOf(day)) == day
  {
    hide YearOf, MonthOf, DateOf, DayFromYear, MonthStart, MonthLength;
    DayBySum(day);
  }

  /** A date of the calendar is the fields of the day it makes. */
  lemma DayHasItsFields(y: int, m: int, dt: int)
    requires 0 <= m < 12 && 1 <= dt <= MonthLength(y, m)
    ensures var day := MakeDay(y, m, dt); YearOf(day) == y && MonthOf(day) == m && DateOf(day) == dt
  {
    hide YearOf, MonthOf, DateOf, DayFromYear, MonthStart, MonthLength;
    var day := MakeDay(y, m, dt);
    MonthsAreOrdered(y, m, 12);
    MonthsFillTheYear(y); YearLength(y);
    YearIsUnique(day, y);
    DayBySum(day);
    var k := MonthOf(day);
    if k < m { MonthsAreOrdered(y, k, m); }
    if m < k { MonthsAreOrdered(y, m, k); }
  }

  // ----- the calendar day by day -----

  /** Day 0 is Thursday, 1 January 1970. */
  lemma DayZero()
    ensures YearOf(0) == 1970 && MonthOf(0) == 0 && DateOf(0) == 1 && WeekDay(0) == 4
  {
    hide YearOf, MonthOf, DateOf, MakeDay, MonthLength;
    EpochIsDayZero();
    DayHasItsFields(1970, 0, 1);
  }

  lemma EpochIsDayZero()
    ensures MakeDay(1970, 0, 1) == 0
  {
    hide MonthStart;
    FirstMonth(1970);
  }

  lemma FirstMonth(y: int)
    ensures MonthStart(y, 0) == 0
  {
  }

  /** The day after: the next date, or the first of the next month or year; and the next weekday. */
  lemma NextDay(day: int)
    ensures var (y, m, dt) := (YearOf(day), MonthOf(day), DateOf(day));
            var leap := y % 4 == 0 && (y % 100 != 0 || y % 400 == 0);
            var length := if m == 1 then (if leap then 29 else 28) else if m in {3, 5, 8, 10} then 30 else 31;
            && WeekDay(day + 1) == (if WeekDay(day) == 6 then 0 else WeekDay(day) + 1)
            && (YearOf(day + 1), MonthOf(day + 1), DateOf(day + 1)) ==
               (if dt < length then (y, m, dt + 1) else if m < 11 then (y, m + 1, 1) else (y + 1, 0, 1))
  {
    hide YearOf, MonthOf, DateOf, DayFromYear, MonthStart;
    var (y, m, dt) := (YearOf(day), MonthOf(day), DateOf(day));
    DayBySum(day);
    if dt < MonthLength(y, m) {
      DayHasItsFields(y, m, dt + 1);
    } else if m < 11 {
      NextMonth(y, m);
      DayHasItsFields(y, m + 1, 1);
    } else {
      NextMonth(y, m);
      YearIsItsMonths(y);
      FirstMonth(y + 1);
      DayHasItsFields(y + 1, 0, 1);
    }
  }

  lemma NextMonth(y: int, m: int)
    requires 0 <= m < 12
    ensures MonthStart(y, m + 1) == MonthStart(y, m) + MonthLength(y, m)
  {
  }

  predicate Earlier(y: int, m: int, dt: int, y': int, m': int, dt': int) {
    y < y' || (y == y' && (m < m' || (m == m' && dt < dt')))
  }

  /** Days are ordered as their year, month and date are. */
  lemma FieldsAreOrdered(a: int, b: int)
    requires a < b
    ensures Earlier(YearOf(a), MonthOf(a), DateOf(a), YearOf(b), MonthOf(b), DateOf(b))
  {
    hide YearOf, MonthOf, DateOf, DayFromYear, MonthStart, MonthLength;
    DayBySum(a); DayBySum(b);
    var (y, z) := (YearOf(a), YearOf(b));
    if z < y { YearsBetween(z + 1, y); }
    if y == z {
      if MonthOf(b) < MonthOf(a) { MonthsAreOrdered(y, MonthOf(b), MonthOf(a)); }
    }
  }

  // ----- dates as text -----

  function Digits(n: nat, w: nat): (s: string)
    ensures |s| == w
  {
    if w == 0 then "" else Digits(n / 10, w - 1) + [(48 + n % 10) as char]
  }

  predicate AllDigits(s: string) {
    forall i :: 0 <= i < |s| ==> '0' <= s[i] <= '9'
  }

  function Number(s: string): nat
    requires AllDigits(s)
  {
    if s == "" then 0 else 10 * Number(s[..|s| - 1]) + (s[|s| - 1] as int - 48)
  }

  function Power10(w: nat): (n: nat)
    ensures n > 0
  {
    if w == 0 then 1 else 10 * Power10(w - 1)
  }

  lemma {:induction false} NumberOfDigits(n: nat, w: nat)
    requires n < Power10(w)
    ensures AllDigits(Digits(n, w)) && Number(Digits(n, w)) == n
  {
    if w > 0 {
      hide Number, AllDigits;
      var (q, r) := (n / 10, n % 10);
      NumberOfDigits(q, w - 1);
      NumberSnoc(Digits(q, w - 1), r);
    }
  }

  lemma NumberSnoc(s: string, d: nat)
    requires AllDigits(s) && d < 10
    ensures AllDigits(s + [(48 + d) as char]) && Number(s + [(48 + d) as char]) == 10 * Number(s) + d
  {
    assert (s + [(48 + d) as char])[..|s|] == s;
  }

  /** `toISOString().substring(0, 10)` for a year of four digits. */
  function Format(day: int): string
    requires 0 <= YearOf(day) <= 9999
  {
    Digits(YearOf(day), 4) + "-" + Digits(MonthOf(day) + 1, 2) + "-" + Digits(DateOf(day), 2)
  }

  /** MakeFullYear: the years 0 to 99 mean 1900 to 1999. */
  function FullYear(y: int): int {
    if 0 <= y <= 99 then 1900 + y else y
  }

  /** `Date.UTC` of the three numbers of YYYY-MM-DD; other text gives an invalid date. */
  function Parse(s: string): Option<int> {
    if |s| == 10 && s[4] == '-' && s[7] == '-' && AllDigits(s[..4]) && AllDigits(s[5..7]) && AllDigits(s[8..])
    then
      Some(MakeDay(FullYear(Number(s[..4])), Number(s[5..7]) - 1, Number(s[8..])))
    else None
  }

  /** Reading back the text of a day gives the day exactly from the year 100 on. */
  lemma ParseOfFormat(day: int)
    requires 0 <= YearOf(day) <= 9999
    ensures Parse(Format(day)).Some?
    ensures Parse(Format(day)) == Some(day) <==> YearOf(day) >= 100
  {
    hide Number, Digits, YearOf, MonthOf, DateOf, MakeDay;
    var (y, m, dt) := (YearOf(day), MonthOf(day), DateOf(day));
    var s := Format(day);
    assert Power10(4) == 10000 && Power10(2) == 100;
    NumberOfDigits(y, 4); NumberOfDigits(m + 1, 2); NumberOfDigits(dt, 2);
    assert s[..4] == Digits(y, 4) && s[5..7] == Digits(m + 1, 2) && s[8..] == Digits(dt, 2);
    FieldsMakeTheDay(day);
    if y < 100 { YearShifted(y, m, dt); }
  }

  predicate IsDigit(c: char) {
    '0' <= c <= '9'
  }

  function Pair(a: char, b: char): int {
    10 * (a as int - '0' as int) + (b as int - '0' as int)
  }

  lemma NumberOfTwo(s: string)
    requires |s| == 2 && AllDigits(s)
    ensures Number(s) == Pair(s[0], s[1])
  {
    assert Number(s[..1]) == s[0] as int - 48 by { assert s[..1][..0] == ""; }
  }

  lemma NumberOfFour(s: string)
    requires |s| == 4 && AllDigits(s)
    ensures Number(s) == 100 * Pair(s[0], s[1]) + Pair(s[2], s[3])
  {
    assert Number(s[..3]) == 10 * Number(s[..2]) + (s[2] as int - 48) by { assert s[..3][..2] == s[..2]; }
    NumberOfTwo(s[..2]);
  }

  /** A text of the form YYYY-MM-DD. */
  predicate IsDateText(s: string) {
    && |s| == 10 && s[4] == '-' && s[7] == '-'
    && IsDigit(s[0]) && IsDigit(s[1]) && IsDigit(s[2]) && IsDigit(s[3]) && IsDigit(s[5]) && IsDigit(s[6]) && IsDigit(s[8]) && IsDigit(s[9])
  }

  /** What a text is read as: a date of the calendar as itself, a year below 100 as one of the twentieth century, anything else as no date. */
  lemma ParseReads(s: string)
    ensures Parse(s).Some? <==> IsDateText(s)
    ensures IsDateText(s) ==>
              var (day, year) := (Parse(s).value, 100 * Pair(s[0], s[1]) + Pair(s[2], s[3]));
              var (y, m, dt) := (if year < 100 then 1900 + year else year, Pair(s[5], s[6]), Pair(s[8], s[9]));
              1 <= m <= 12 && 1 <= dt <= MonthLength(y, m - 1) ==> YearOf(day) == y && MonthOf(day) == m - 1 && DateOf(day) == dt
  {
    hide YearOf, MonthOf, DateOf, MakeDay, Number, MonthLength;
    assert IsDateText(s) <==> |s| == 10 && s[4] == '-' && s[7] == '-' && AllDigits(s[..4]) && AllDigits(s[5..7]) && AllDigits(s[8..]) by {
      if |s| == 10 && AllDigits(s[..4]) && AllDigits(s[5..7]) && AllDigits(s[8..]) {
        assert s[..4][0] == s[0] && s[..4][1] == s[1] && s[..4][2] == s[2] && s[..4][3] == s[3];
        assert s[5..7][0] == s[5] && s[5..7][1] == s[6] && s[8..][0] == s[8] && s[8..][1] == s[9];
      }
    }
    if IsDateText(s) {
      NumberOfFour(s[..4]); NumberOfTwo(s[5..7]); NumberOfTwo(s[8..]);
      var year := Number(s[..4]);
      var (y, m, dt) := (if year < 100 then 1900 + year else year, Number(s[5..7]), Number(s[8..]));
      if 1 <= m <= 12 && 1 <= dt <= MonthLength(y, m - 1) { DayHasItsFields(y, m - 1, dt); }
    }
  }

  /** What a day is written as: YYYY-MM-DD with its own year, month and date. */
  lemma FormatWrites(day: int)
    requires 0 <= YearOf(day) <= 9999
    ensures var s := Format(day);
            && IsDateText(s) && 100 * Pair(s[0], s[1]) + Pair(s[2], s[3]) == YearOf(day)
            && Pair(s[5], s[6]) == MonthOf(day) + 1 && Pair(s[8], s[9]) == DateOf(day)
  {
    hide Number, Digits, YearOf, MonthOf, DateOf, MakeDay;
    var (y, m, dt) := (YearOf(day), MonthOf(day), DateOf(day));
    var s := Format(day);
    assert Power10(4) == 10000 && Power10(2) == 100;
    NumberOfDigits(y, 4); NumberOfDigits(m + 1, 2); NumberOfDigits(dt, 2);
    assert s[..4] == Digits(y, 4) && s[5..7] == Digits(m + 1, 2) && s[8..] == Digits(dt, 2);
    NumberOfFour(s[..4]); NumberOfTwo(s[5..7]); NumberOfTwo(s[8..]);
  }

  lemma YearShifted(y: int, m: int, dt: int)
    requires 0 <= m < 12 && 1 <= dt <= MonthLength(y, m)
    ensures MakeDay(1900 + y, m, dt) != MakeDay(y, m, dt)
  {
    YearsAreOrdered(y + 1, y + 1900);
    YearLength(y);
    MonthsAreOrdered(y, m, 12); MonthsFillTheYear(y);
  }

  // ----- the order of texts -----

  /** The order of strings in the source's language: by code unit, a proper prefix first. */
  predicate Less(s: string, t: string) {
    t != "" && (s == "" || s[0] < t[0] || (s[0] == t[0] && Less(s[1..], t[1..])))
  }

  lemma {:induction false} LessByParts(s: string, t: string, u: string, v: string)
    requires |s| == |t|
    ensures Less(s + u, t + v) <==> Less(s, t) || (s == t && Less(u, v))
  {
    if s == "" {
      assert s + u == u && t + v == v;
    } else {
      LessByParts(s[1..], t[1..], u, v);
      assert (s + u)[1..] == s[1..] + u && (t + v)[1..] == t[1..] + v;
      assert s == [s[0]] + s[1..] && t == [t[0]] + t[1..];
    }
  }

  lemma {:induction false} DigitsAreOrdered(n: nat, k: nat, w: nat)
    requires n < Power10(w) && k < Power10(w)
    ensures Less(Digits(n, w), Digits(k, w)) <==> n < k
    ensures Digits(n, w) == Digits(k, w) <==> n == k
  {
    NumberOfDigits(n, w); NumberOfDigits(k, w);
    if w > 0 {
      DigitsAreOrdered(n / 10, k / 10, w - 1);
      var (a, b) := ([(48 + n % 10) as char], [(48 + k % 10) as char]);
      LessByParts(Digits(n / 10, w - 1), Digits(k / 10, w - 1), a, b);
      assert Less(a, b) <==> n % 10 < k % 10;
    }
  }

  /** Comparing the texts of two days compares the days. */
  lemma FormatKeepsOrder(a: int, b: int)
    requires 0 <= YearOf(a) <= 9999 && 0 <= YearOf(b) <= 9999
    ensures Less(Format(a), Format(b)) <==> a < b
  {
    hide Digits, Less, YearOf, MonthOf, DateOf;
    if a < b { FieldsAreOrdered(a, b); }
    if b < a { FieldsAreOrdered(b, a); }
    var (y, m, d, y', m', d') := (YearOf(a), MonthOf(a) + 1, DateOf(a), YearOf(b), MonthOf(b) + 1, DateOf(b));
    assert Power10(4) == 10000 && Power10(2) == 100;
    DigitsAreOrdered(y, y', 4); DigitsAreOrdered(m, m', 2); DigitsAreOrdered(d, d', 2);
    var (r, r') := ("-" + Digits(d, 2), "-" + Digits(d', 2));
    var (q, q') := ("-" + (Digits(m, 2) + r), "-" + (Digits(m', 2) + r'));
    assert Format(a) == Digits(y, 4) + q && Format(b) == Digits(y', 4) + q';
    LessByParts(Digits(y, 4), Digits(y', 4), q, q');
    LessByParts("-", "-", Digits(m, 2) + r, Digits(m', 2) + r');
    LessByParts(Digits(m, 2), Digits(m', 2), r, r');
    LessByParts("-", "-", Digits(d, 2), Digits(d', 2));
    DashIsNotLess();
  }

  lemma DashIsNotLess()
    ensures !Less("-", "-")
  {
  }
}
