/**
 Recurring expenses and the ranges of the attendance log. Times are milliseconds since 1 January 1970 in a zone
 whose offset never changes.
 */
module Recurrence {
  import opened Options
  import opened Calendar

  const DAY_MS := 86400000

  function DayOf(time: int): int { time / DAY_MS }

  /** `setHours(0, 0, 0, 0)` on a day. */
  function Midnight(day: int): int { day * DAY_MS }

  /** The source language's `%`, which takes the sign of the dividend. */
  function Rem(a: int, b: int): int
    requires b > 0
  {
    if a >= 0 then a % b else -((-a) % b)
  }

  // ----- the next run -----

  datatype Recurrence = Daily | Weekly | Monthly | Other

  function DaysUntil(target: int, currentDay: int): int {
    var k := Rem(target - currentDay + 7, 7);
    if k == 0 then 7 else k
  }

  /** `setMonth(getMonth() + 1)` keeps the date, and so runs on into the month after when it does not exist. */
  function MonthLater(day: int): int {
    MakeDay(YearOf(day), MonthOf(day) + 1, DateOf(day))
  }

  /** `new Date(y, m + 1, 0).getDate()`: the length of the month. */
  function LastDate(day: int): int {
    DateOf(MakeDay(FullYear(YearOf(day)), MonthOf(day) + 1, 0))
  }

  function MonthlyDay(day: int, target: int): int {
    var landed := MonthLater(day);
    MakeDay(YearOf(landed), MonthOf(landed), if target < LastDate(landed) then target else LastDate(landed))
  }

  function NextRun(kind: Recurrence, recurrenceDay: Option<int>, now: int): int {
    match kind
    case Daily => Midnight(DayOf(now) + 1)
    case Weekly => Midnight(DayOf(now) + DaysUntil(Coalesce(recurrenceDay, Some(0)).value, WeekDay(DayOf(now))))
    case Monthly => Midnight(MonthlyDay(DayOf(now), Coalesce(recurrenceDay, Some(1)).value))
    case Other => now + DAY_MS
  }

  lemma MidnightIsAfter(day: int, now: int)
    ensures Midnight(day) > now <==> day > DayOf(now)
    ensures DayOf(Midnight(day)) == day
  {
  }

  /** The weekday is always the wanted one; the run is one to seven days ahead exactly when the remainder is not negative. */
  lemma WeeklyRun(target: int, now: int)
    ensures var next := NextRun(Weekly, Some(target), now);
            && WeekDay(DayOf(next)) == target % 7
            && (next > now <==> target - WeekDay(DayOf(now)) + 7 >= 0 || target % 7 == WeekDay(DayOf(now)))
            && (next > now <==> DayOf(now) + 1 <= DayOf(next) <= DayOf(now) + 7)
            && DayOf(now) - 6 <= DayOf(next) <= DayOf(now) + 7
  {
    hide DayOf, Midnight, DaysUntil, WeekDay;
    MidnightIsAfter(DayOf(now) + DaysUntil(target, WeekDay(DayOf(now))), now);
    DaysUntilIs(target, DayOf(now));
  }

  lemma DaysUntilIs(target: int, day: int)
    ensures var k := DaysUntil(target, WeekDay(day));
            && WeekDay(day + k) == target % 7
            && (k > 0 <==> target - WeekDay(day) + 7 >= 0 || target % 7 == WeekDay(day))
            && (k > 0 <==> 1 <= k <= 7)
            && -6 <= k <= 7
  {
    hide WeekDay;
    var a := target - WeekDay(day) + 7;
    var q, k := RemIs(a);
    var w := DaysUntil(target, WeekDay(day));
    SevensApart(day, w, target, if Rem(a, 7) == 0 then 1 - q else -q);
    SevensOrNot(target, WeekDay(day), q, k);
  }

  /** The remainder by its quotient. */
  lemma RemIs(a: int) returns (q: int, k: int)
    ensures k == Rem(a, 7) && a == 7 * q + k && -7 < k < 7 && (k > 0 ==> a > 0) && (k < 0 ==> a < 0)
  {
    k := Rem(a, 7);
    if a >= 0 { q := a / 7; } else { q := -((-a) / 7); }
  }

  lemma SevensApart(day: int, k: int, target: int, q: int)
    requires day + k + 4 == day + 4 - WeekDay(day) + target + 7 * q + 7
    ensures WeekDay(day + k) == target % 7
  {
    var e := (day + 4) / 7;
    assert day + k + 4 == target + 7 * (e + q + 1);
    ModSeven(target, e + q + 1);
  }

  lemma ModSeven(x: int, q: int)
    ensures (x + 7 * q) % 7 == x % 7
  {
  }

  lemma SevensOrNot(target: int, w: int, q: int, k: int)
    requires 0 <= w < 7 && target - w + 7 == 7 * q + k && -7 < k < 7
    ensures k == 0 <==> target % 7 == w
  {
    if k == 0 { ModSeven(w, q - 1); }
    if target % 7 == w { assert target == 7 * (target / 7) + w; assert k == 7 * (target / 7 + 1 - q); }
  }

  /** A stored day of -8 on a Sunday gives the Saturday before. */
  lemma WeeklyRunInThePast()
    ensures WeekDay(DayOf(Midnight(3))) == 0
    ensures NextRun(Weekly, Some(-8), Midnight(3)) == Midnight(2) && Midnight(2) < Midnight(3)
  {
    assert Rem(-1, 7) == -1;
  }

  /** A weekday from 0 to 6 always works. */
  lemma WeeklyRunForAWeekday(target: int, now: int)
    requires 0 <= target < 7
    ensures var next := NextRun(Weekly, Some(target), now);
            next > now && WeekDay(DayOf(next)) == target && DayOf(now) + 1 <= DayOf(next) <= DayOf(now) + 7
  {
    hide WeekDay, DayOf;
    WeeklyRun(target, now);
  }

  function MonthNumber(day: int): int {
    12 * YearOf(day) + MonthOf(day)
  }

  function NextMonthLength(day: int): int {
    if MonthOf(day) == 11 then 31 else MonthLength(YearOf(day), MonthOf(day) + 1)
  }

  lemma MakeDayCarries(y: int, m: int, dt: int)
    requires 0 <= m < 12 && MonthLength(y, m) < dt <= 31
    ensures MakeDay(y, m, dt) == if m == 11 then MakeDay(y + 1, 0, dt - 31) else MakeDay(y, m + 1, dt - MonthLength(y, m))
  {
    hide DayFromYear;
    if m == 11 { MonthsFillTheYear(y); YearLength(y); }
  }

  lemma NextMonthIs(day: int)
    ensures MonthLater(day) == if MonthOf(day) == 11 then MakeDay(YearOf(day) + 1, 0, DateOf(day)) else MakeDay(YearOf(day), MonthOf(day) + 1, DateOf(day))
  {
    hide YearOf, MonthOf, DateOf, DayFromYear, MonthStart, MonthLength;
  }

  /** The month landed in is the next one exactly when it has today's date, and otherwise the one after it. */
  lemma MonthLanded(day: int)
    ensures MonthNumber(MonthLater(day)) == MonthNumber(day) + if DateOf(day) <= NextMonthLength(day) then 1 else 2
  {
    hide YearOf, MonthOf, DateOf, MakeDay, MonthLater;
    var (y, m, dt) := (YearOf(day), MonthOf(day), DateOf(day));
    NextMonthIs(day);
    var (y', m') := if m == 11 then (y + 1, 0) else (y, m + 1);
    if dt <= NextMonthLength(day) {
      DayHasItsFields(y', m', dt);
    } else {
      MakeDayCarries(y', m', dt);
      DayHasItsFields(y', m' + 1, dt - MonthLength(y', m'));
    }
  }

  lemma LastDateIsTheLength(day: int)
    requires YearOf(day) >= 100
    ensures LastDate(day) == MonthLength(YearOf(day), MonthOf(day))
  {
    hide YearOf, MonthOf, DateOf, MakeDay, MonthLength;
    var (y, m) := (YearOf(day), MonthOf(day));
    MonthEnds(y, m);
    DatesCount(y, m + 1, 0); DatesCount(y, m, MonthLength(y, m));
    DayHasItsFields(y, m, MonthLength(y, m));
  }

  lemma MonthNumbersAreOrdered(a: int, b: int)
    requires MonthNumber(a) < MonthNumber(b)
    ensures a < b
  {
    hide YearOf, MonthOf, DateOf, DayFromYear;
    if b < a { FieldsAreOrdered(b, a); }
  }

  lemma MonthLaterYear(day: int)
    requires YearOf(day) >= 100
    ensures YearOf(MonthLater(day)) >= 100
  {
    hide YearOf, MonthOf, MonthLater;
    MonthLanded(day);
  }

  /** The first day of the month landed in. */
  function LandedMonthStart(day: int): int {
    MakeDay(YearOf(MonthLater(day)), MonthOf(MonthLater(day)), 1)
  }

  /** For a target from 1 on: the target date clamped to the month landed in, which is always after now. */
  lemma MonthlyRun(target: int, now: int)
    requires YearOf(DayOf(now)) >= 100 && target >= 1
    ensures var (landed, next) := (MonthLater(DayOf(now)), NextRun(Monthly, Some(target), now));
            && next > now
            && YearOf(DayOf(next)) == YearOf(landed) && MonthOf(DayOf(next)) == MonthOf(landed)
            && DateOf(DayOf(next)) == (var n := MonthLength(YearOf(landed), MonthOf(landed)); if target < n then target else n)
  {
    hide YearOf, MonthOf, DateOf, MonthLater, LastDate, MakeDay, DayOf, Midnight;
    var day := DayOf(now);
    var landed := MonthLater(day);
    MonthLanded(day);
    MonthLaterYear(day);
    LastDateIsTheLength(landed);
    var n := MonthLength(YearOf(landed), MonthOf(landed));
    DayHasItsFields(YearOf(landed), MonthOf(landed), if target < n then target else n);
    MidnightIsAfter(MonthlyDay(day, target), now);
    MonthNumbersAreOrdered(day, MonthlyDay(day, target));
  }

  /** For any target: the run is after now exactly when the target reaches past today, counted from the start of the month landed in. */
  lemma MonthlyRunIsAfterIff(target: int, now: int)
    requires YearOf(DayOf(now)) >= 100
    ensures NextRun(Monthly, Some(target), now) > now <==> LandedMonthStart(DayOf(now)) + target - 1 > DayOf(now)
    ensures LandedMonthStart(DayOf(now)) > DayOf(now)
  {
    hide YearOf, MonthOf, DateOf, MonthLater, LastDate, MakeDay, DayOf, Midnight;
    var day := DayOf(now);
    var landed := MonthLater(day);
    MonthLanded(day);
    MonthLaterYear(day);
    LastDateIsTheLength(landed);
    DayHasItsFields(YearOf(landed), MonthOf(landed), 1);
    MonthNumbersAreOrdered(day, LandedMonthStart(day));
    MidnightIsAfter(MonthlyDay(day, target), now);
    if target >= 1 {
      MonthlyRun(target, now);
    } else {
      DatesCount(YearOf(landed), MonthOf(landed), target);
    }
  }

  lemma DatesCount(y: int, m: int, dt: int)
    ensures MakeDay(y, m, dt) == MakeDay(y, m, 1) + dt - 1
  {
  }

  /** The recurrence days with which the next run is in the future. */
  predicate RunsForward(kind: Recurrence, recurrenceDay: Option<int>, now: int) {
    match kind
    case Daily => true
    case Other => true
    case Weekly =>
      var target := Coalesce(recurrenceDay, Some(0)).value;
      target - WeekDay(DayOf(now)) + 7 >= 0 || target % 7 == WeekDay(DayOf(now))
    case Monthly => LandedMonthStart(DayOf(now)) + Coalesce(recurrenceDay, Some(1)).value - 1 > DayOf(now)
  }

  /** Exactly when the next run is strictly after now. */
  lemma NextRunIsAfterIff(kind: Recurrence, recurrenceDay: Option<int>, now: int)
    requires YearOf(DayOf(now)) >= 100
    ensures NextRun(kind, recurrenceDay, now) > now <==> RunsForward(kind, recurrenceDay, now)
  {
    hide WeekDay, LandedMonthStart, MonthlyDay, DaysUntil, YearOf;
    MidnightIsAfter(DayOf(now) + 1, now);
    WeeklyRun(Coalesce(recurrenceDay, Some(0)).value, now);
    MonthlyRunIsAfterIff(Coalesce(recurrenceDay, Some(1)).value, now);
  }

  lemma WholeDays(day: int)
    ensures Midnight(day) % 86400000 == 0 && Midnight(day) / 86400000 == day
  {
  }

  /** A daily run is at the next midnight, and one of no known kind a whole day later. */
  lemma DailyRun(recurrenceDay: Option<int>, now: int)
    ensures var next := NextRun(Daily, recurrenceDay, now);
            next % 86400000 == 0 && now < next <= now + 86400000
    ensures NextRun(Other, recurrenceDay, now) == now + 86400000
  {
  }

  /** A weekly run is at a midnight at most seven days ahead and at most six back, on the weekday of the stored day, or on Sunday when there is none. */
  lemma WeeklyRunFor(recurrenceDay: Option<int>, now: int)
    ensures var next := NextRun(Weekly, recurrenceDay, now);
            var target := if recurrenceDay.Some? then recurrenceDay.value else 0;
            && next % 86400000 == 0 && -6 <= next / 86400000 - now / 86400000 <= 7
            && (next / 86400000 + 4) % 7 == target % 7
            && (next > now <==> target - WeekDay(now / 86400000) + 7 >= 0 || target % 7 == WeekDay(now / 86400000))
  {
    hide DaysUntil;
    var target := if recurrenceDay.Some? then recurrenceDay.value else 0;
    WeeklyRun(target, now);
    WholeDays(DayOf(now) + DaysUntil(target, WeekDay(DayOf(now))));
  }

  /**
   The day is in the month after today's, or in the one after that when the next has no such date as today's; on the target, but no
   later than the month's last. A target below 1 counts back from its first.
   */
  ghost predicate OnMonthlyDay(today: int, day: int, target: int) {
    var length := if MonthOf(today) == 11 then 31 else MonthLength(YearOf(today), MonthOf(today) + 1);
    var month := 12 * YearOf(today) + MonthOf(today) + if DateOf(today) <= length then 1 else 2;
    && (target >= 1 ==>
          && 12 * YearOf(day) + MonthOf(day) == month
          && DateOf(day) == if target < MonthLength(YearOf(day), MonthOf(day)) then target else MonthLength(YearOf(day), MonthOf(day)))
    && (target < 1 ==>
          var first := day - target + 1;
          12 * YearOf(first) + MonthOf(first) == month && DateOf(first) == 1)
  }

  /** A monthly run is at the midnight of such a day, for the stored day, or for the first when there is none. */
  lemma MonthlyRunFor(recurrenceDay: Option<int>, now: int)
    requires YearOf(DayOf(now)) >= 100
    ensures var next := NextRun(Monthly, recurrenceDay, now);
            next % 86400000 == 0 && OnMonthlyDay(now / 86400000, next / 86400000, if recurrenceDay.Some? then recurrenceDay.value else 1)
  {
    hide YearOf, MonthOf, DateOf, MonthLater, LastDate, MakeDay, MonthLength, Midnight;
    var target := if recurrenceDay.Some? then recurrenceDay.value else 1;
    var today := DayOf(now);
    var landed := MonthLater(today);
    MonthLanded(today);
    MonthLaterYear(today);
    LastDateIsTheLength(landed);
    WholeDays(MonthlyDay(today, target));
    if target >= 1 {
      MonthlyRun(target, now);
    } else {
      DayHasItsFields(YearOf(landed), MonthOf(landed), 1);
      DatesCount(YearOf(landed), MonthOf(landed), target);
    }
  }

  // ----- the sweep -----

  datatype Template = Template(kind: Option<Recurrence>, recurrenceDay: Option<int>, nextRunAt: Option<int>,
                               active: bool, deleted: bool, preApproved: bool, amount: Option<real>, expiryHours: Option<int>)

  datatype Expense = Expense(templateId: nat, approved: bool, amount: real, expiresAt: int)

  /** What the database answers while one template is processed; `marked` tells whether the last update went through. */
  datatype Answers = Answers(hasBranch: bool, hasApprover: bool, inserted: bool, marked: bool)

  predicate Due(t: Template, now: int) {
    t.kind.Some? && t.active && !t.deleted && t.nextRunAt.Some? && t.nextRunAt.value <= now
  }

  predicate Creates(t: Template, a: Answers, now: int) {
    Due(t, now) && a.hasBranch && a.hasApprover && a.inserted
  }

  function ExpenseOf(id: nat, t: Template, now: int): Expense {
    Expense(id, t.preApproved, Coalesce(t.amount, Some(0.0)).value, now + Coalesce(t.expiryHours, Some(24)).value * 3600000)
  }

  function Processed(t: Template, a: Answers, now: int): Template {
    if Creates(t, a, now) && a.marked then t.(nextRunAt := Some(NextRun(t.kind.value, t.recurrenceDay, now))) else t
  }

  /** The expenses that a sweep adds, in the order of the templates. */
  function Created(templates: seq<Template>, answers: seq<Answers>, now: int): seq<Expense>
    requires |templates| == |answers|
  {
    if templates == [] then [] else
    var n := |templates| - 1;
    Created(templates[..n], answers[..n], now) +
    if Creates(templates[n], answers[n], now) then [ExpenseOf(n, templates[n], now)] else []
  }

  function Swept(templates: seq<Template>, answers: seq<Answers>, now: int): seq<Template>
    requires |templates| == |answers|
  {
    seq(|templates|, i requires 0 <= i < |templates| => Processed(templates[i], answers[i], now))
  }

  /**
   The expense that is to be added for a template, if it is due, has a branch and an approver, and the insert works: approved as the
   template is, of its amount or none, and good for its hours or a day.
   */
  predicate IsExpenseFor(e: Expense, t: Template, a: Answers, now: int) {
    && t.kind.Some? && t.active && !t.deleted && t.nextRunAt.Some? && t.nextRunAt.value <= now
    && a.hasBranch && a.hasApprover && a.inserted
    && e.approved == t.preApproved && e.amount == (if t.amount.Some? then t.amount.value else 0.0)
    && e.expiresAt == now + (if t.expiryHours.Some? then t.expiryHours.value else 24) * 3600000
  }

  lemma OneTemplate(n: nat, t: Template, a: Answers, now: int, e: Expense)
    ensures Creates(t, a, now) && e == ExpenseOf(n, t, now) <==> e.templateId == n && IsExpenseFor(e, t, a, now)
  {
  }

  /** A sweep adds exactly that one expense for each template, and no other. */
  lemma {:induction false} OneExpenseEach(templates: seq<Template>, answers: seq<Answers>, now: int, e: Expense)
    requires |templates| == |answers|
    ensures multiset(Created(templates, answers, now))[e] ==
            if e.templateId < |templates| && IsExpenseFor(e, templates[e.templateId], answers[e.templateId], now) then 1 else 0
  {
    hide Creates, ExpenseOf, IsExpenseFor;
    if templates != [] {
      var n := |templates| - 1;
      OneExpenseEach(templates[..n], answers[..n], now, e);
      OneTemplate(n, templates[n], answers[n], now, e);
    }
  }

  /** A sweep moves the next run of exactly the templates it added an expense for and could mark, and touches nothing else. */
  lemma OnlyProcessedMove(templates: seq<Template>, answers: seq<Answers>, now: int, i: nat)
    requires |templates| == |answers| && i < |templates|
    ensures var (t, a, t') := (templates[i], answers[i], Swept(templates, answers, now)[i]);
            && t'.(nextRunAt := None) == t.(nextRunAt := None)
            && if && t.kind.Some? && t.active && !t.deleted && t.nextRunAt.Some? && t.nextRunAt.value <= now
                  && a.hasBranch && a.hasApprover && a.inserted && a.marked
               then t'.nextRunAt == Some(NextRun(t.kind.value, t.recurrenceDay, now)) else t' == t
  {
    hide NextRun;
  }

  /** Whether a template is done with at this instant: nothing was due, or the whole step went through and the next run is ahead. */
  predicate FullyProcessed(t: Template, a: Answers, now: int) {
    !Due(t, now) || (Creates(t, a, now) && a.marked && RunsForward(t.kind.value, t.recurrenceDay, now))
  }

  /**
   A second sweep at the same instant, whatever the database answers then, creates expenses only for templates that
   the first one did not fully process: and it can for each of those.
   */
  lemma RerunCreatesOnlyWhatWasNotDone(templates: seq<Template>, first: seq<Answers>, second: seq<Answers>, now: int, i: nat)
    requires |templates| == |first| == |second| && i < |templates| && YearOf(DayOf(now)) >= 100
    ensures var again := Swept(templates, first, now);
            && (FullyProcessed(templates[i], first[i], now) <==> !Due(again[i], now))
            && (FullyProcessed(templates[i], first[i], now) ==> forall e :: e in Created(again, second, now) ==> e.templateId != i)
  {
    hide NextRun, RunsForward, YearOf, DayOf, ExpenseOf;
    var t := templates[i];
    if t.kind.Some? { NextRunIsAfterIff(t.kind.value, t.recurrenceDay, now); }
    var again := Swept(templates, first, now);
    forall e | e in Created(again, second, now) ensures e.templateId < |again| && Creates(again[e.templateId], second[e.templateId], now) {
      OneExpenseEach(again, second, now, e);
    }
  }

  /** If the first sweep fully processed every template, the second changes nothing. */
  lemma {:induction false} RerunIsIdle(templates: seq<Template>, first: seq<Answers>, second: seq<Answers>, now: int)
    requires |templates| == |first| == |second| && YearOf(DayOf(now)) >= 100
    requires forall i :: 0 <= i < |templates| ==> FullyProcessed(templates[i], first[i], now)
    ensures var again := Swept(templates, first, now);
            Swept(again, second, now) == again && Created(again, second, now) == []
  {
    hide FullyProcessed, NextRun, YearOf, DayOf;
    var again := Swept(templates, first, now);
    forall i | 0 <= i < |templates| ensures !Due(again[i], now) { RerunCreatesOnlyWhatWasNotDone(templates, first, second, now, i); }
    NothingDue(again, second, now);
  }

  lemma {:induction false} NothingDue(templates: seq<Template>, answers: seq<Answers>, now: int)
    requires |templates| == |answers| && forall i :: 0 <= i < |templates| ==> !Due(templates[i], now)
    ensures Created(templates, answers, now) == []
  {
    if templates != [] { NothingDue(templates[..|templates| - 1], answers[..|answers| - 1], now); }
  }

  lemma NoTemplates(now: int)
    ensures Created([], [], now) == []
  {
  }

  lemma CreatedSoFar(templates: seq<Template>, answers: seq<Answers>, i: nat, now: int)
    requires |templates| == |answers| && i < |templates|
    ensures Created(templates[..i + 1], answers[..i + 1], now) == Created(templates[..i], answers[..i], now) +
            if Creates(templates[i], answers[i], now) then [ExpenseOf(i, templates[i], now)] else []
  {
    assert templates[..i + 1][..i] == templates[..i] && answers[..i + 1][..i] == answers[..i];
  }

  class ExpensesService {
    var templates: seq<Template>
    var expenses: seq<Expense>

    constructor (templates: seq<Template>)
      ensures this.templates == templates && expenses == []
    {
      this.templates, expenses := templates, [];
    }

    /** The date fields are changed one after the other. */
    static method CalculateNextRun(kind: Recurrence, recurrenceDay: Option<int>, now: int) returns (next: int)
      ensures next == NextRun(kind, recurrenceDay, now)
    {
      hide YearOf, MonthOf, DateOf, MakeDay, WeekDay, DaysUntil, DayOf, Midnight;
      if kind == Daily {
        var day := DayOf(now);
        day := day + 1;
        return Midnight(day);
      }
      if kind == Weekly {
        var targetDay := Coalesce(recurrenceDay, Some(0)).value;
        var day := DayOf(now);
        day := day + DaysUntil(targetDay, WeekDay(day));
        return Midnight(day);
      }
      if kind == Monthly {
        var targetDay := Coalesce(recurrenceDay, Some(1)).value;
        var day := DayOf(now);
        day := MakeDay(YearOf(day), MonthOf(day) + 1, DateOf(day));
        var last := DateOf(MakeDay(FullYear(YearOf(day)), MonthOf(day) + 1, 0));
        day := MakeDay(YearOf(day), MonthOf(day), if targetDay < last then targetDay else last);
        return Midnight(day);
      }
      next := now + DAY_MS;
    }

    method ProcessRecurringExpenses(now: int, answers: seq<Answers>) returns (created: nat)
      requires |answers| == |templates|
      modifies this
      ensures templates == Swept(old(templates), answers, now)
      ensures expenses == old(expenses) + Created(old(templates), answers, now)
      ensures created == |Created(old(templates), answers, now)|
    {
      hide NextRun, Created;
      created := 0;
      ghost var was := templates;
      NoTemplates(now);
      var i := 0;
      while i < |templates|
        invariant |templates| == |was| && i <= |was|
        invariant forall k :: 0 <= k < |was| ==> templates[k] == if k < i then Processed(was[k], answers[k], now) else was[k]
        invariant expenses == old(expenses) + Created(was[..i], answers[..i], now)
        invariant created == |Created(was[..i], answers[..i], now)|
      {
        var t, a := templates[i], answers[i];
        CreatedSoFar(was, answers, i, now);
        i := i + 1;
        if !Due(t, now) || !a.hasBranch || !a.hasApprover || !a.inserted { continue; }
        var amount := if t.amount.Some? then t.amount.value else 0.0;
        var expiryHours := if t.expiryHours.Some? then t.expiryHours.value else 24;
        expenses := expenses + [Expense(i - 1, t.preApproved, amount, now + expiryHours * 3600000)];
        var next := CalculateNextRun(t.kind.value, t.recurrenceDay, now);
        if a.marked { templates := templates[i - 1 := t.(nextRunAt := Some(next))]; }
        created := created + 1;
      }
      assert was[..|was|] == was && answers[..|answers|] == answers;
    }
  }

  // ----- the attendance log -----

  datatype LogRange = DayRange | WeekRange | MonthRange

  /** The first day of the range and the day after its last. */
  function LogDays(range: LogRange, anchor: int): (int, int) {
    match range
    case DayRange => (anchor, anchor + 1)
    case WeekRange => (anchor - (WeekDay(anchor) + 1) % 7, anchor - (WeekDay(anchor) + 1) % 7 + 7)
    case MonthRange => (MakeDay(FullYear(YearOf(anchor)), MonthOf(anchor), 1), MakeDay(FullYear(YearOf(anchor)), MonthOf(anchor) + 1, 1))
  }

  /** `from` and `to` are moved field by field; the day reported as the last is the one before `to`. */
  method GetLog(range: LogRange, anchor: int) returns (from: int, till: int, reportedLast: int)
    ensures (from, till) == LogDays(range, anchor) && reportedLast == till - 1
    ensures !(0 <= YearOf(anchor) <= 99) ==> from <= anchor <= reportedLast
  {
    hide YearOf, MonthOf, MakeDay;
    from, till := anchor, anchor;
    match range {
      case DayRange => till := till + 1;
      case WeekRange =>
        var daysSinceSaturday := (WeekDay(anchor) + 1) % 7;
        from := from - daysSinceSaturday;
        till := from + 7;
      case MonthRange =>
        from := MakeDay(FullYear(YearOf(anchor)), MonthOf(anchor), 1);
        till := MakeDay(FullYear(YearOf(anchor)), MonthOf(anchor) + 1, 1);
    }
    reportedLast := till - 1;
    if !(0 <= YearOf(anchor) <= 99) { RangesPartitionTheDays(range, anchor, anchor); }
  }

  /** Weeks start on Saturday and last seven days. */
  lemma WeekStartsOnSaturday(anchor: int)
    ensures var (from, till) := LogDays(WeekRange, anchor); WeekDay(from) == 6 && from <= anchor < till == from + 7
    ensures forall s: int :: WeekDay(s) == 6 && s <= anchor < s + 7 ==> s == LogDays(WeekRange, anchor).0
  {
  }

  /** Months go from their first day to their length. */
  lemma MonthRangeIsTheMonth(anchor: int)
    requires !(0 <= YearOf(anchor) <= 99)
    ensures var (from, till) := LogDays(MonthRange, anchor);
            && from == anchor - DateOf(anchor) + 1 && till == from + MonthLength(YearOf(anchor), MonthOf(anchor)) && from <= anchor < till
  {
    hide YearOf, MonthOf, DateOf, MakeDay, MonthLength;
    var (y, m, dt) := (YearOf(anchor), MonthOf(anchor), DateOf(anchor));
    FieldsMakeTheDay(anchor);
    DatesCount(y, m, dt);
    MonthEnds(y, m);
  }

  lemma MonthEnds(y: int, m: int)
    requires 0 <= m < 12
    ensures MakeDay(y, m + 1, 1) == MakeDay(y, m, 1) + MonthLength(y, m)
  {
    hide DayFromYear;
    if m == 11 { MonthsFillTheYear(y); YearLength(y); }
  }

  /** Each kind of range cuts the days into pieces: a day lies in the range of another exactly when both have the same range. */
  lemma RangesPartitionTheDays(range: LogRange, a: int, b: int)
    requires !(0 <= YearOf(a) <= 99) && !(0 <= YearOf(b) <= 99)
    ensures LogDays(range, a).0 <= b < LogDays(range, a).1 <==> LogDays(range, b) == LogDays(range, a)
    ensures LogDays(range, a).0 <= a < LogDays(range, a).1
  {
    hide YearOf, MonthOf, MakeDay, WeekDay;
    match range
    case DayRange =>
    case WeekRange => SaturdaysAgree(a, b);
    case MonthRange => MonthsAgree(a, b);
  }

  lemma SameMonth(a: int, b: int)
    requires a - DateOf(a) + 1 <= b < a - DateOf(a) + 1 + MonthLength(YearOf(a), MonthOf(a))
    ensures YearOf(b) == YearOf(a) && MonthOf(b) == MonthOf(a)
  {
    hide YearOf, MonthOf, DateOf, MakeDay, MonthLength;
    var (y, m, dt) := (YearOf(a), MonthOf(a), b - (a - DateOf(a)));
    FieldsMakeTheDay(a);
    DatesCount(y, m, DateOf(a)); DatesCount(y, m, dt);
    DayHasItsFields(y, m, dt);
  }

  lemma MonthsAgree(a: int, b: int)
    requires !(0 <= YearOf(a) <= 99) && !(0 <= YearOf(b) <= 99)
    ensures LogDays(MonthRange, a).0 <= b < LogDays(MonthRange, a).1 <==> LogDays(MonthRange, b) == LogDays(MonthRange, a)
    ensures LogDays(MonthRange, a).0 <= a < LogDays(MonthRange, a).1
  {
    hide YearOf, MonthOf, DateOf, MakeDay, MonthLength;
    MonthRangeIsTheMonth(a); MonthRangeIsTheMonth(b);
    if LogDays(MonthRange, a).0 <= b < LogDays(MonthRange, a).1 { SameMonth(a, b); }
  }

  lemma SaturdaysAgree(a: int, b: int)
    ensures LogDays(WeekRange, a).0 <= b < LogDays(WeekRange, a).1 <==> LogDays(WeekRange, b) == LogDays(WeekRange, a)
    ensures LogDays(WeekRange, a).0 <= a < LogDays(WeekRange, a).1
  {
    WeekStartsOnSaturday(a); WeekStartsOnSaturday(b);
  }
}
