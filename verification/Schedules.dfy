/**
 Work schedule rows: which rows a shift pattern means for a range of dates, and the table they are inserted
 into and deleted from.
 */
module Schedules {
  import opened Options
  import opened Calendar

  datatype Shift = Shift(start_time: string, end_time: string)

  datatype Override = Override(day: int, shifts: seq<Shift>)

  /** `days_of_week` may be left out of a bulk request; a shift pattern always has it. */
  datatype Pattern = Pattern(daysOfWeek: Option<seq<int>>, shifts: seq<Shift>, dayOverrides: seq<Override>)

  datatype Row = Row(tenant: string, user: string, branch: Option<string>, date: int, shift: Shift)

  datatype DatedShift = DatedShift(date: int, shift: Shift)

  // ----- what a pattern means -----

  /** The last override given for a weekday replaces the base shifts. */
  function ShiftsFor(p: Pattern, weekday: int): seq<Shift> {
    Coalesce(LastOverride(p.dayOverrides, weekday), Some(p.shifts)).value
  }

  function LastOverride(overrides: seq<Override>, weekday: int): Option<seq<Shift>> {
    if overrides == [] then None
    else if overrides[|overrides| - 1].day == weekday then Some(overrides[|overrides| - 1].shifts)
    else LastOverride(overrides[..|overrides| - 1], weekday)
  }

  predicate Works(p: Pattern, day: int) {
    p.daysOfWeek.Some? ==> WeekDay(day) in p.daysOfWeek.value
  }

  function DayShifts(p: Pattern, day: int): seq<Shift> {
    if Works(p, day) then ShiftsFor(p, WeekDay(day)) else []
  }

  function Dated(day: int, shifts: seq<Shift>): seq<DatedShift> {
    seq(|shifts|, i requires 0 <= i < |shifts| => DatedShift(day, shifts[i]))
  }

  /** The dated shifts from one day to another, both included, in the order of the dates. */
  function Span(p: Pattern, from: int, till: int): seq<DatedShift>
    decreases till - from
  {
    if till < from then [] else Span(p, from, till - 1) + Dated(till, DayShifts(p, till))
  }

  function RowsOf(tenant: string, user: string, branch: Option<string>, span: seq<DatedShift>): seq<Row> {
    seq(|span|, i requires 0 <= i < |span| => Row(tenant, user, branch, span[i].date, span[i].shift))
  }

  function AllRows(tenant: string, users: seq<string>, branch: Option<string>, span: seq<DatedShift>): seq<Row> {
    if users == [] then []
    else AllRows(tenant, users[..|users| - 1], branch, span) + RowsOf(tenant, users[|users| - 1], branch, span)
  }

  // ----- none missing and none extra -----

  lemma {:induction false} DatedCount(day: int, shifts: seq<Shift>, x: DatedShift)
    ensures multiset(Dated(day, shifts))[x] == if x.date == day then multiset(shifts)[x.shift] else 0
  {
    if shifts != [] {
      var n := |shifts| - 1;
      DatedCount(day, shifts[..n], x);
      assert shifts == shifts[..n] + [shifts[n]];
      assert Dated(day, shifts) == Dated(day, shifts[..n]) + [DatedShift(day, shifts[n])];
    }
  }

  lemma {:induction false} SpanCount(p: Pattern, from: int, till: int, x: DatedShift)
    ensures multiset(Span(p, from, till))[x] == if from <= x.date <= till then multiset(DayShifts(p, x.date))[x.shift] else 0
    decreases till - from
  {
    hide DayShifts;
    if from <= till {
      SpanCount(p, from, till - 1, x);
      DatedCount(till, DayShifts(p, till), x);
    }
  }

  lemma {:induction false} RowsOfCount(tenant: string, user: string, branch: Option<string>, span: seq<DatedShift>, r: Row)
    ensures multiset(RowsOf(tenant, user, branch, span))[r] ==
            if (r.tenant, r.user, r.branch) == (tenant, user, branch) then multiset(span)[DatedShift(r.date, r.shift)] else 0
  {
    if span != [] {
      var n := |span| - 1;
      RowsOfCount(tenant, user, branch, span[..n], r);
      assert span == span[..n] + [span[n]];
      assert RowsOf(tenant, user, branch, span) ==
             RowsOf(tenant, user, branch, span[..n]) + [Row(tenant, user, branch, span[n].date, span[n].shift)];
    }
  }

  lemma {:induction false} AllRowsCount(tenant: string, users: seq<string>, branch: Option<string>, span: seq<DatedShift>, r: Row)
    ensures multiset(AllRows(tenant, users, branch, span))[r] ==
            if (r.tenant, r.branch) == (tenant, branch) then multiset(users)[r.user] * multiset(span)[DatedShift(r.date, r.shift)] else 0
  {
    hide RowsOf;
    if users != [] {
      var n := |users| - 1;
      AllRowsCount(tenant, users[..n], branch, span, r);
      RowsOfCount(tenant, users[n], branch, span, r);
      assert users == users[..n] + [users[n]];
      OneMore(multiset(users[..n])[r.user], multiset(span)[DatedShift(r.date, r.shift)]);
    }
  }

  lemma OneMore(n: nat, k: nat)
    ensures (n + 1) * k == n * k + k && 0 * k == 0
  {
  }

  /**
   The row occurs n times among those asked for, read off the request alone. A date counts when it is in the range and the weekdays
   are left out or name its own. Its shifts are those of the last override for its weekday, else the base shifts; the row
   occurs once for each mention of its user and each mention of its shift among them.
   */
  ghost predicate OccursAsAsked(n: nat, r: Row, tenant: string, users: seq<string>, branch: Option<string>, p: Pattern, from: int, till: int) {
    var weekday := (r.date + 4) % 7;
    if r.tenant == tenant && r.branch == branch && from <= r.date <= till && (p.daysOfWeek.None? || weekday in p.daysOfWeek.value) then
      && ((forall i :: 0 <= i < |p.dayOverrides| ==> p.dayOverrides[i].day != weekday) ==>
            n == multiset(users)[r.user] * multiset(p.shifts)[r.shift])
      && (forall i :: 0 <= i < |p.dayOverrides| && p.dayOverrides[i].day == weekday
                      && (forall j :: i < j < |p.dayOverrides| ==> p.dayOverrides[j].day != weekday) ==>
            n == multiset(users)[r.user] * multiset(p.dayOverrides[i].shifts)[r.shift])
    else n == 0
  }

  lemma {:induction false} LastOverrideIs(overrides: seq<Override>, weekday: int)
    ensures match LastOverride(overrides, weekday)
            case None => forall i :: 0 <= i < |overrides| ==> overrides[i].day != weekday
            case Some(shifts) => exists i :: 0 <= i < |overrides| && overrides[i].day == weekday && overrides[i].shifts == shifts
                                             && forall j :: i < j < |overrides| ==> overrides[j].day != weekday
  {
    if overrides != [] {
      var n := |overrides| - 1;
      if overrides[n].day != weekday {
        LastOverrideIs(overrides[..n], weekday);
        if LastOverride(overrides[..n], weekday).Some? {
          var i :| 0 <= i < n && overrides[..n][i].day == weekday && overrides[..n][i].shifts == LastOverride(overrides[..n], weekday).value
                   && forall j :: i < j < n ==> overrides[..n][j].day != weekday;
          assert overrides[i].day == weekday && forall j :: i < j < n ==> overrides[j].day == overrides[..n][j].day;
        } else {
          assert forall i :: 0 <= i < n ==> overrides[i].day == overrides[..n][i].day;
        }
      }
    }
  }

  lemma SpanOccurs(n: nat, r: Row, tenant: string, users: seq<string>, branch: Option<string>, p: Pattern, from: int, till: int)
    requires n == if (r.tenant, r.branch) == (tenant, branch)
                  then multiset(users)[r.user] * multiset(Span(p, from, till))[DatedShift(r.date, r.shift)] else 0
    ensures OccursAsAsked(n, r, tenant, users, branch, p, from, till)
  {
    hide Span, LastOverride;
    SpanCount(p, from, till, DatedShift(r.date, r.shift));
    LastOverrideIs(p.dayOverrides, WeekDay(r.date));
  }

  /** Every row of a bulk creation occurs exactly as often as the request says, and no other row does. */
  lemma BulkRowsAreExactly(tenant: string, users: seq<string>, branch: Option<string>, p: Pattern, from: int, till: int, r: Row)
    ensures OccursAsAsked(multiset(AllRows(tenant, users, branch, Span(p, from, till)))[r], r, tenant, users, branch, p, from, till)
  {
    hide AllRows, Span, OccursAsAsked;
    AllRowsCount(tenant, users, branch, Span(p, from, till), r);
    SpanOccurs(multiset(AllRows(tenant, users, branch, Span(p, from, till)))[r], r, tenant, users, branch, p, from, till);
  }

  /** An empty list of weekdays means no day at all, not every day. */
  lemma {:induction false} NoWeekdaysNoRows(p: Pattern, from: int, till: int)
    ensures Span(p.(daysOfWeek := Some([])), from, till) == []
    decreases till - from
  {
    if from <= till { NoWeekdaysNoRows(p, from, till - 1); }
  }

  // ----- parts of a table -----

  function Select(table: seq<Row>, keep: Row -> bool): seq<Row> {
    if table == [] then []
    else Select(table[..|table| - 1], keep) + if keep(table[|table| - 1]) then [table[|table| - 1]] else []
  }

  lemma {:induction false} SelectAppend(a: seq<Row>, b: seq<Row>, keep: Row -> bool)
    ensures Select(a + b, keep) == Select(a, keep) + Select(b, keep)
  {
    if b == [] {
      assert a + b == a;
    } else {
      SelectAppend(a, b[..|b| - 1], keep);
      assert (a + b)[..|a + b| - 1] == a + b[..|b| - 1];
    }
  }

  lemma {:induction false} SelectAll(table: seq<Row>, keep: Row -> bool)
    requires forall r :: r in table ==> keep(r)
    ensures Select(table, keep) == table
  {
    if table != [] {
      var init, last := table[..|table| - 1], table[|table| - 1];
      assert table == init + [last] && last in table;
      SelectAll(init, keep);
    }
  }

  lemma {:induction false} SelectNone(table: seq<Row>, keep: Row -> bool)
    requires forall r :: r in table ==> !keep(r)
    ensures Select(table, keep) == []
  {
    if table != [] {
      var init, last := table[..|table| - 1], table[|table| - 1];
      assert table == init + [last] && last in table;
      SelectNone(init, keep);
    }
  }

  lemma {:induction false} SelectFrom(table: seq<Row>, keep: Row -> bool)
    ensures forall r :: r in Select(table, keep) <==> r in table && keep(r)
  {
    if table != [] {
      SelectFrom(table[..|table| - 1], keep);
      assert table == table[..|table| - 1] + [table[|table| - 1]];
    }
  }

  /** Selecting a part of what was kept is selecting it at once. */
  lemma {:induction false} SelectTwice(table: seq<Row>, keep: Row -> bool, part: Row -> bool)
    requires forall r :: part(r) ==> keep(r)
    ensures Select(Select(table, keep), part) == Select(table, part)
  {
    if table != [] {
      var init, last := table[..|table| - 1], table[|table| - 1];
      SelectTwice(init, keep, part);
      SelectAppend(Select(init, keep), if keep(last) then [last] else [], part);
    }
  }

  /** The rows that `deleteFrom` leaves. */
  function Remaining(table: seq<Row>, tenant: string, users: seq<string>, from: int): seq<Row> {
    Select(table, (r: Row) => !(r.tenant == tenant && r.user in users && from <= r.date))
  }

  /** The rows of one user from a day on. */
  function Future(table: seq<Row>, tenant: string, user: string, from: int): seq<Row> {
    Select(table, (r: Row) => r.tenant == tenant && r.user == user && from <= r.date)
  }

  lemma {:induction false} SpanInRange(p: Pattern, from: int, till: int)
    ensures forall x :: x in Span(p, from, till) ==> from <= x.date <= till
    decreases till - from
  {
    if from <= till { SpanInRange(p, from, till - 1); }
  }

  lemma {:induction false} AllRowsAreTheirs(tenant: string, users: seq<string>, branch: Option<string>, span: seq<DatedShift>)
    ensures forall r :: r in AllRows(tenant, users, branch, span) ==>
                          r.tenant == tenant && r.user in users && r.branch == branch && DatedShift(r.date, r.shift) in span
  {
    if users != [] {
      var n := |users| - 1;
      AllRowsAreTheirs(tenant, users[..n], branch, span);
      RowsAreTheUsers(tenant, users[n], branch, span);
    }
  }

  lemma RowsAreTheUsers(tenant: string, user: string, branch: Option<string>, span: seq<DatedShift>)
    ensures forall r :: r in RowsOf(tenant, user, branch, span) ==>
                          r.tenant == tenant && r.user == user && r.branch == branch && DatedShift(r.date, r.shift) in span
  {
    forall r | r in RowsOf(tenant, user, branch, span)
      ensures r.tenant == tenant && r.user == user && r.branch == branch && DatedShift(r.date, r.shift) in span
    {
      var i :| 0 <= i < |span| && r == RowsOf(tenant, user, branch, span)[i];
      assert span[i] == DatedShift(r.date, r.shift);
    }
  }

  predicate Distinct<T(==)>(xs: seq<T>) {
    forall i, j :: 0 <= i < j < |xs| ==> xs[i] != xs[j]
  }

  /** The same rows several times over. */
  function Copies(rows: seq<Row>, n: nat): seq<Row> {
    if n == 0 then [] else Copies(rows, n - 1) + rows
  }

  /** Among the rows created, those of one user are that user's span, in order, once for each mention of the user. */
  lemma {:induction false} OneUsersRows(tenant: string, users: seq<string>, branch: Option<string>, span: seq<DatedShift>, user: string, from: int)
    requires forall x :: x in span ==> from <= x.date
    ensures Future(AllRows(tenant, users, branch, span), tenant, user, from) ==
            Copies(RowsOf(tenant, user, branch, span), multiset(users)[user])
  {
    hide Select, RowsOf;
    var mine := (r: Row) => r.tenant == tenant && r.user == user && from <= r.date;
    if users == [] {
      SelectNone([], mine);
    } else {
      var n := |users| - 1;
      OneUsersRows(tenant, users[..n], branch, span, user, from);
      var last := RowsOf(tenant, users[n], branch, span);
      SelectAppend(AllRows(tenant, users[..n], branch, span), last, mine);
      assert users == users[..n] + [users[n]];
      RowsAreTheUsers(tenant, users[n], branch, span);
      if users[n] == user { SelectAll(last, mine); } else { SelectNone(last, mine); }
    }
  }

  /** A deletion leaves no row of these users from that date on; every selection that spares those rows is as before, in order. */
  lemma DeletionIsExact(table: seq<Row>, tenant: string, users: seq<string>, from: int, user: string, part: Row -> bool)
    requires forall r :: part(r) ==> !(r.tenant == tenant && r.user in users && from <= r.date)
    ensures user in users ==> Future(Remaining(table, tenant, users, from), tenant, user, from) == []
    ensures Select(Remaining(table, tenant, users, from), part) == Select(table, part)
  {
    hide Select;
    var other := (r: Row) => !(r.tenant == tenant && r.user in users && from <= r.date);
    SelectTwice(table, other, part);
    SelectFrom(table, other);
    if user in users {
      SelectNone(Remaining(table, tenant, users, from), (r: Row) => r.tenant == tenant && r.user == user && from <= r.date);
    }
  }

  // ----- regeneration -----

  const ROLLING_WINDOW_DAYS := 730

  datatype Result<T> = Ok(value: T) | Err(error: ScheduleError)

  datatype ScheduleError = UserNotFound(user: string) | BranchNotFound | DateOrder | PatternNotFound | ExactlyOne | IdTaken | DatabaseFailed

  /** The range of a bulk request: an error when it is reversed, and no day at all when a date is not one. */
  function BulkSpan(p: Pattern, dateFrom: Option<int>, dateTo: Option<int>): Result<seq<DatedShift>> {
    if dateFrom.None? || dateTo.None? then Ok([])
    else if dateTo.value < dateFrom.value then Err(DateOrder)
    else Ok(Span(p, dateFrom.value, dateTo.value))
  }

  /** `date_from` of a regeneration: the later of the two texts. */
  function StartText(start: Option<string>, today: int): string
    requires 0 <= YearOf(today) <= 9999
  {
    if start.Some? && start.value != "" && Less(Format(today), start.value) then start.value else Format(today)
  }

  /** A clock whose two-year window stays in years of four digits. */
  predicate Clock(today: int) {
    100 <= YearOf(today) && YearOf(today + ROLLING_WINDOW_DAYS) <= 9999
  }

  lemma ClockYears(today: int)
    requires Clock(today)
    ensures 100 <= YearOf(today) <= 9999 && 100 <= YearOf(today + ROLLING_WINDOW_DAYS) <= 9999
  {
    hide YearOf, MonthOf, DateOf, DayFromYear;
    FieldsAreOrdered(today, today + ROLLING_WINDOW_DAYS);
  }

  /** The first day a regeneration fills: today, a later start date, or none when the start is no date. */
  function FirstDay(start: Option<string>, today: int): Option<int>
    requires Clock(today)
  {
    ClockYears(today);
    Parse(StartText(start, today))
  }

  /** For a start date given as a date, the first day is the later of the start and today. */
  lemma FirstDayIsTheLater(start: int, today: int)
    requires Clock(today) && 100 <= YearOf(start) <= 9999
    ensures FirstDay(Some(Format(start)), today) == Some(if start > today then start else today)
    ensures FirstDay(None, today) == Some(today)
  {
    hide Format, Parse, Less, YearOf, DayFromYear, Clock;
    ClockYears(today);
    ParseOfFormat(start); ParseOfFormat(today);
    FormatKeepsOrder(today, start);
    NotEmpty(start);
  }

  lemma NotEmpty(day: int)
    requires 0 <= YearOf(day) <= 9999
    ensures |Format(day)| == 10
  {
  }

  /** The rows a pattern gives one user from its first day to the end of the rolling window. */
  function Window(p: Pattern, first: Option<int>, today: int): seq<DatedShift> {
    if first.None? then [] else Span(p, first.value, today + ROLLING_WINDOW_DAYS)
  }

  /** Delete what these users have from today on, then fill the window. */
  function Regenerated(table: seq<Row>, tenant: string, users: seq<string>, p: Pattern, first: Option<int>, today: int): seq<Row> {
    Remaining(table, tenant, users, today) + AllRows(tenant, users, None, Window(p, first, today))
  }

  /** A start after the window is an error, raised when the old rows are already gone; the table is as if the window were empty. */
  lemma RegenerationError(table: seq<Row>, tenant: string, users: seq<string>, p: Pattern, first: Option<int>, today: int)
    ensures BulkSpan(p, first, Some(today + ROLLING_WINDOW_DAYS)).Err? <==> first.Some? && first.value > today + ROLLING_WINDOW_DAYS
    ensures first.Some? && first.value > today + ROLLING_WINDOW_DAYS ==>
              Regenerated(table, tenant, users, p, first, today) == Remaining(table, tenant, users, today)
    ensures BulkSpan(p, first, Some(today + ROLLING_WINDOW_DAYS)).Ok? ==>
              BulkSpan(p, first, Some(today + ROLLING_WINDOW_DAYS)) == Ok(Window(p, first, today))
  {
    if first.Some? && first.value > today + ROLLING_WINDOW_DAYS { NoSpanNoRows(tenant, users, None); }
  }

  lemma {:induction false} NoSpanNoRows(tenant: string, users: seq<string>, branch: Option<string>)
    ensures AllRows(tenant, users, branch, []) == []
  {
    if users != [] { NoSpanNoRows(tenant, users[..|users| - 1], branch); }
  }

  lemma WindowInRange(p: Pattern, first: Option<int>, today: int)
    requires first.Some? ==> first.value >= today
    ensures forall x :: x in Window(p, first, today) ==> today <= x.date <= today + ROLLING_WINDOW_DAYS
  {
    if first.Some? { SpanInRange(p, first.value, today + ROLLING_WINDOW_DAYS); }
  }

  /**
   Regenerating leaves every row of others and every earlier row in place and in order, gives each of the users
   exactly the window of the pattern, once for each mention of the user, and puts new rows nowhere else.
   */
  lemma RegenerationIsExact(table: seq<Row>, tenant: string, users: seq<string>, p: Pattern, first: Option<int>, today: int, user: string)
    requires first.Some? ==> first.value >= today
    ensures var t := Regenerated(table, tenant, users, p, first, today);
            && Remaining(t, tenant, users, today) == Remaining(table, tenant, users, today)
            && Future(t, tenant, user, today) ==
               (if user in users then Copies(RowsOf(tenant, user, None, Window(p, first, today)), multiset(users)[user])
                else Future(table, tenant, user, today))
    ensures forall r :: r in Regenerated(table, tenant, users, p, first, today) && r !in table ==>
                          r.tenant == tenant && r.user in users && today <= r.date <= today + ROLLING_WINDOW_DAYS
  {
    hide Window, Select, AllRows, RowsOf;
    var kept, added := Remaining(table, tenant, users, today), AllRows(tenant, users, None, Window(p, first, today));
    var other := (r: Row) => !(r.tenant == tenant && r.user in users && today <= r.date);
    var mine := (r: Row) => r.tenant == tenant && r.user == user && today <= r.date;
    WindowInRange(p, first, today);
    AllRowsAreTheirs(tenant, users, None, Window(p, first, today));
    SelectFrom(table, other);
    SelectAppend(kept, added, other); SelectTwice(table, other, other); SelectNone(added, other);
    SelectAppend(kept, added, mine); OneUsersRows(tenant, users, None, Window(p, first, today), user, today);
    if user in users { SelectNone(kept, mine); } else { SelectTwice(table, other, mine); }
  }

  lemma {:induction false} SelectCount(table: seq<Row>, keep: Row -> bool, r: Row)
    ensures multiset(Select(table, keep))[r] == if keep(r) then multiset(table)[r] else 0
  {
    if table != [] {
      SelectCount(table[..|table| - 1], keep, r);
      assert table == table[..|table| - 1] + [table[|table| - 1]];
    }
  }

  /**
   How often each row occurs after a regeneration: as before when it is another's or an earlier one; otherwise as the pattern says
   for the days from its first one to 730 days after today, and not at all when there is no first day.
   */
  lemma RegeneratedRowsAreExactly(table: seq<Row>, tenant: string, users: seq<string>, p: Pattern, first: Option<int>, today: int, r: Row)
    requires first.Some? ==> first.value >= today
    ensures var n := multiset(Regenerated(table, tenant, users, p, first, today))[r];
            if !(r.tenant == tenant && r.user in users && today <= r.date) then n == multiset(table)[r]
            else if first.None? then n == 0
            else OccursAsAsked(n, r, tenant, users, None, p, first.value, today + 730)
  {
    hide Select, AllRows, Span, OccursAsAsked;
    var added := AllRows(tenant, users, None, Window(p, first, today));
    SelectCount(table, (r: Row) => !(r.tenant == tenant && r.user in users && today <= r.date), r);
    AllRowsCount(tenant, users, None, Window(p, first, today), r);
    assert multiset(Regenerated(table, tenant, users, p, first, today))[r] ==
           multiset(Remaining(table, tenant, users, today))[r] + multiset(added)[r];
    WindowInRange(p, first, today);
    AllRowsAreTheirs(tenant, users, None, Window(p, first, today));
    assert r in multiset(added) ==> r in added;
    if first.Some? { BulkRowsAreExactly(tenant, users, None, p, first.value, today + 730, r); }
  }

  /** Regenerating again on the same day changes nothing. */
  lemma RegeneratingTwiceIsOnce(table: seq<Row>, tenant: string, users: seq<string>, p: Pattern, first: Option<int>, today: int)
    requires first.Some? ==> first.value >= today
    ensures var t := Regenerated(table, tenant, users, p, first, today);
            Regenerated(t, tenant, users, p, first, today) == t
  {
    hide Window, Select, AllRows;
    var kept, added := Remaining(table, tenant, users, today), AllRows(tenant, users, None, Window(p, first, today));
    var other := (r: Row) => !(r.tenant == tenant && r.user in users && today <= r.date);
    WindowInRange(p, first, today);
    AllRowsAreTheirs(tenant, users, None, Window(p, first, today));
    SelectAppend(kept, added, other); SelectTwice(table, other, other); SelectNone(added, other);
  }
}
