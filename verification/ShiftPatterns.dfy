/**
 Shift patterns, their assignment to users, and what every run of assignments, edits and removals over any
 number of days keeps: each user's coming rows are those of the user's pattern.
 */
module ShiftPatterns {
  import opened Options
  import opened Calendar
  import opened Schedules

  /** The schedule columns of a user. */
  datatype UserFields = UserFields(patternId: Option<string>, custom: Option<Pattern>, startDate: Option<string>)

  datatype Office = Office(patterns: map<string, Pattern>, fields: map<string, UserFields>, table: seq<Row>)

  datatype PatternEdit = PatternEdit(daysOfWeek: Option<seq<int>>, shifts: Option<seq<Shift>>, dayOverrides: Option<seq<Override>>)

  /** What an operation answers with. */
  datatype Reply = AssignedCount(n: nat) | PatternRow(id: string, pattern: Pattern) | NoContent

  datatype Op =
    | Create(id: string, pattern: Pattern)
    | Assign(users: seq<string>, patternId: Option<string>, custom: Option<Pattern>, start: string)
    | Edit(id: string, edit: PatternEdit)
    | Remove(id: string)

  /** The statements of the operations; checks of users and queries of a creation are numbered. */
  datatype Statement =
    | UserCheck(n: nat)
    | PatternLookup
    | PatternWrite
    | AssigneeQuery
    | ColumnsWrite
    | Deletion
    | Creation(n: nat)

  /** The columns left out of an edit keep their values. */
  function Edited(p: Pattern, e: PatternEdit): Pattern {
    Pattern(Coalesce(e.daysOfWeek, p.daysOfWeek), Coalesce(e.shifts, Some(p.shifts)).value, Coalesce(e.dayOverrides, Some(p.dayOverrides)).value)
  }

  function FirstMissing(users: seq<string>, staff: seq<string>): Option<string> {
    if users == [] then None
    else if users[0] !in staff then Some(users[0])
    else FirstMissing(users[1..], staff)
  }

  /** The checks of the users in turn, when the one with number `fails` is not answered. */
  function UsersRefused(users: seq<string>, staff: seq<string>, fails: Option<nat>): Option<ScheduleError> {
    var unanswered := fails.Some? && fails.value < |users|;
    var missing := FirstMissing(if unanswered then users[..fails.value] else users, staff);
    if missing.Some? then Some(UserNotFound(missing.value)) else if unanswered then Some(DatabaseFailed) else None
  }

  /** Whether a creation comes to the query that fails: one of its checks of the users, or the insert after them and the branch. */
  predicate CreationFails(users: seq<string>, span: Result<seq<DatedShift>>, stop: Option<Statement>) {
    && stop.Some? && stop.value.Creation?
    && (stop.value.n < |users| || (stop.value.n == |users| + 1 && span.Ok? && span.value != []))
  }

  function Assigned(fields: map<string, UserFields>, staff: seq<string>, id: string): seq<string> {
    if staff == [] then []
    else Assigned(fields, staff[..|staff| - 1], id) +
         var u := staff[|staff| - 1];
         if u in fields && fields[u].patternId == Some(id) then [u] else []
  }

  function Written(fields: map<string, UserFields>, users: seq<string>, f: UserFields -> UserFields): map<string, UserFields> {
    map u | u in fields :: if u in users then f(fields[u]) else fields[u]
  }

  /** Deleting a pattern empties the columns that refer to it. */
  function Unlinked(fields: map<string, UserFields>, id: string): map<string, UserFields> {
    map u | u in fields :: if fields[u].patternId == Some(id) then fields[u].(patternId := None) else fields[u]
  }

  /** A regeneration deletes and then creates, with no transaction around the two. */
  function Regeneration(table: seq<Row>, tenant: string, users: seq<string>, p: Pattern, first: Option<int>, today: int, stop: Option<Statement>)
    : (seq<Row>, Option<ScheduleError>)
  {
    var span := BulkSpan(p, first, Some(today + ROLLING_WINDOW_DAYS));
    if stop == Some(Deletion) then (table, Some(DatabaseFailed))
    else if CreationFails(users, span, stop) then (Remaining(table, tenant, users, today), Some(DatabaseFailed))
    else (Regenerated(table, tenant, users, p, first, today), if span.Err? then Some(DateOrder) else None)
  }

  /** An operation when the database fails the statement `stop`, if the operation comes to it. */
  function Apply(s: Office, op: Op, tenant: string, staff: seq<string>, today: int, stop: Option<Statement>): (Office, Result<Reply>)
    requires Clock(today)
  {
    match op
    case Create(id, pattern) => Created(s, id, pattern, stop)
    case Assign(_, _, _, _) => AssignedTo(s, op, tenant, staff, today, stop)
    case Edit(id, edit) => EditedTo(s, id, edit, tenant, staff, today, stop)
    case Remove(id) => Removed(s, id, tenant, staff, today, stop)
  }

  function Created(s: Office, id: string, pattern: Pattern, stop: Option<Statement>): (Office, Result<Reply>) {
    if stop == Some(PatternWrite) then (s, Err(DatabaseFailed))
    else if id in s.patterns then (s, Err(IdTaken))
    else (s.(patterns := s.patterns[id := pattern]), Ok(PatternRow(id, pattern)))
  }

  /** The refusal of an assignment before its first write, if there is one. */
  function Refusal(s: Office, op: Op, staff: seq<string>, stop: Option<Statement>): Option<ScheduleError>
    requires op.Assign?
  {
    var fails := if stop.Some? && stop.value.UserCheck? then Some(stop.value.n) else None;
    if op.patternId.Some? == op.custom.Some? then Some(ExactlyOne)
    else if UsersRefused(op.users, staff, fails).Some? then UsersRefused(op.users, staff, fails)
    else if op.patternId.Some? && stop == Some(PatternLookup) then Some(DatabaseFailed)
    else if op.patternId.Some? && op.patternId.value !in s.patterns then Some(PatternNotFound)
    else if stop == Some(ColumnsWrite) then Some(DatabaseFailed)
    else None
  }

  /** The pattern of an assignment that is not refused. */
  function Resolved(s: Office, op: Op): Pattern
    requires op.Assign? && op.patternId.Some? != op.custom.Some? && (op.patternId.Some? ==> op.patternId.value in s.patterns)
  {
    if op.patternId.Some? then s.patterns[op.patternId.value] else op.custom.value
  }

  function AssignedTo(s: Office, op: Op, tenant: string, staff: seq<string>, today: int, stop: Option<Statement>): (Office, Result<Reply>)
    requires Clock(today) && op.Assign?
  {
    if Refusal(s, op, staff, stop).Some? then (s, Err(Refusal(s, op, staff, stop).value))
    else
      var made := Regeneration(s.table, tenant, op.users, Resolved(s, op), FirstDay(Some(op.start), today), today, stop);
      (s.(fields := Written(s.fields, op.users, _ => UserFields(op.patternId, op.custom, Some(op.start))), table := made.0),
       if made.1.Some? then Err(made.1.value) else Ok(AssignedCount(|op.users|)))
  }

  function EditedTo(s: Office, id: string, edit: PatternEdit, tenant: string, staff: seq<string>, today: int, stop: Option<Statement>)
    : (Office, Result<Reply>)
  {
    if stop == Some(PatternLookup) then (s, Err(DatabaseFailed))
    else if id !in s.patterns then (s, Err(PatternNotFound))
    else if stop == Some(PatternWrite) then (s, Err(DatabaseFailed))
    else
      var p, users := Edited(s.patterns[id], edit), Assigned(s.fields, staff, id);
      var s' := s.(patterns := s.patterns[id := p]);
      if stop == Some(AssigneeQuery) then (s', Err(DatabaseFailed))
      else if users == [] then (s', Ok(PatternRow(id, p)))
      else
        var made := Regeneration(s.table, tenant, users, p, Some(today), today, stop);
        (s'.(table := made.0), if made.1.Some? then Err(made.1.value) else Ok(PatternRow(id, p)))
  }

  function Removed(s: Office, id: string, tenant: string, staff: seq<string>, today: int, stop: Option<Statement>): (Office, Result<Reply>) {
    if stop == Some(PatternLookup) then (s, Err(DatabaseFailed))
    else if id !in s.patterns then (s, Err(PatternNotFound))
    else if stop == Some(AssigneeQuery) || stop == Some(PatternWrite) then (s, Err(DatabaseFailed))
    else
      var users := Assigned(s.fields, staff, id);
      var s' := s.(patterns := s.patterns - {id}, fields := Unlinked(s.fields, id));
      if users == [] then (s', Ok(NoContent))
      else if stop == Some(ColumnsWrite) then (s', Err(DatabaseFailed))
      else
        var s'' := s'.(fields := Written(s'.fields, users, (f: UserFields) => f.(patternId := None, startDate := None)));
        if stop == Some(Deletion) then (s'', Err(DatabaseFailed))
        else (s''.(table := Remaining(s.table, tenant, users, today)), Ok(NoContent))
  }

  lemma {:induction false} AssignedAre(fields: map<string, UserFields>, staff: seq<string>, id: string)
    ensures forall u :: u in Assigned(fields, staff, id) <==> u in staff && u in fields && fields[u].patternId == Some(id)
    ensures Distinct(staff) ==> Distinct(Assigned(fields, staff, id))
  {
    if staff != [] {
      AssignedAre(fields, staff[..|staff| - 1], id);
      assert staff == staff[..|staff| - 1] + [staff[|staff| - 1]];
    }
  }

  lemma {:induction false} NobodyMissing(users: seq<string>, staff: seq<string>)
    ensures FirstMissing(users, staff).None? <==> forall u :: u in users ==> u in staff
    ensures FirstMissing(users, staff).Some? ==> FirstMissing(users, staff).value in users && FirstMissing(users, staff).value !in staff
  {
    if users != [] {
      NobodyMissing(users[1..], staff);
      assert users == [users[0]] + users[1..];
    }
  }

  // ----- what is answered and written, from the request and the tables alone -----

  /** The checks of the users end at the first that is missing or not answered, whichever comes first. */
  lemma UsersRefusedFor(users: seq<string>, staff: seq<string>, fails: Option<nat>)
    ensures var r := UsersRefused(users, staff, fails);
            && (r == None <==> (forall u :: u in users ==> u in staff) && (fails.None? || fails.value >= |users|))
            && (forall i :: 0 <= i < |users| && users[i] !in staff && (forall j :: 0 <= j < i ==> users[j] in staff) ==>
                  r == Some(if fails.Some? && fails.value <= i then DatabaseFailed else UserNotFound(users[i])))
            && ((forall u :: u in users ==> u in staff) && fails.Some? && fails.value < |users| ==> r == Some(DatabaseFailed))
  {
    hide FirstMissing;
    var asked := if fails.Some? && fails.value < |users| then users[..fails.value] else users;
    NobodyMissing(asked, staff);
    if !(forall u :: u in users ==> u in staff) {
      forall i | 0 <= i < |users| && users[i] !in staff && (forall j :: 0 <= j < i ==> users[j] in staff)
        ensures UsersRefused(users, staff, fails) == Some(if fails.Some? && fails.value <= i then DatabaseFailed else UserNotFound(users[i]))
      {
        if i < |asked| { assert asked[i] == users[i]; FirstMissingIs(asked, staff, i); }
      }
    }
  }

  lemma {:induction false} FirstMissingIs(users: seq<string>, staff: seq<string>, i: nat)
    requires i < |users| && users[i] !in staff && forall j :: 0 <= j < i ==> users[j] in staff
    ensures FirstMissing(users, staff) == Some(users[i])
  {
    if i > 0 { FirstMissingIs(users[1..], staff, i - 1); }
  }

  /**
   An assignment with every statement answered: it needs exactly one of a pattern and custom shifts, users who are all there, a
   pattern that is there, and a first day within 730 days. The columns are written even when only the last of these fails.
   */
  lemma AssignmentIs(s: Office, op: Op, tenant: string, staff: seq<string>, today: int)
    requires Clock(today) && op.Assign?
    ensures var (s', r) := Apply(s, op, tenant, staff, today, None);
            var staffed := forall u :: u in op.users ==> u in staff;
            var one := op.patternId.Some? != op.custom.Some?;
            var known := op.patternId.Some? ==> op.patternId.value in s.patterns;
            var first := FirstDay(Some(op.start), today);
            var late := first.Some? && first.value > today + 730;
            && (r == Err(ExactlyOne) <==> !one)
            && ((exists u :: r == Err(UserNotFound(u))) <==> one && !staffed)
            && (r == Err(PatternNotFound) <==> one && staffed && !known)
            && (r == Err(DateOrder) <==> one && staffed && known && late)
            && (r == Ok(AssignedCount(|op.users|)) <==> one && staffed && known && !late)
            && s'.patterns == s.patterns && s'.fields.Keys == s.fields.Keys
            && (forall u :: u in s.fields ==>
                  s'.fields[u] == if one && staffed && known && u in op.users then UserFields(op.patternId, op.custom, Some(op.start)) else s.fields[u])
            && (one && staffed && known ==>
                  s'.table == Regenerated(s.table, tenant, op.users, if op.patternId.Some? then s.patterns[op.patternId.value] else op.custom.value, first, today))
            && (!(one && staffed && known) ==> s'.table == s.table)
  {
    hide FirstDay, Clock, Regenerated, UsersRefused, Span;
    UsersRefusedFor(op.users, staff, None);
    RefusedIsMissing(op.users, staff);
  }

  lemma RefusedIsMissing(users: seq<string>, staff: seq<string>)
    ensures UsersRefused(users, staff, None).Some? ==> UsersRefused(users, staff, None).value.UserNotFound?
  {
  }

  /** An edit with every statement answered sets the columns it names and keeps the others, and regenerates its assignees from today. */
  lemma EditIs(s: Office, id: string, edit: PatternEdit, tenant: string, staff: seq<string>, today: int)
    requires Clock(today)
    ensures var (s', r) := Apply(s, Edit(id, edit), tenant, staff, today, None);
            && (id !in s.patterns ==> r == Err(PatternNotFound) && s' == s)
            && (id in s.patterns ==>
                  var p := s.patterns[id];
                  var p' := Pattern(if edit.daysOfWeek.Some? then edit.daysOfWeek else p.daysOfWeek,
                                    if edit.shifts.Some? then edit.shifts.value else p.shifts,
                                    if edit.dayOverrides.Some? then edit.dayOverrides.value else p.dayOverrides);
                  && r == Ok(PatternRow(id, p')) && s'.fields == s.fields && s'.patterns == s.patterns[id := p']
                  && exists users ::
                       && (forall u :: u in users <==> u in staff && u in s.fields && s.fields[u].patternId == Some(id))
                       && s'.table == if users == [] then s.table else Regenerated(s.table, tenant, users, p', Some(today), today))
  {
    hide Clock, Regenerated, Assigned, Span;
    AssignedAre(s.fields, staff, id);
    if id in s.patterns {
      var p' := Edited(s.patterns[id], edit);
      var users := Assigned(s.fields, staff, id);
      assert Apply(s, Edit(id, edit), tenant, staff, today, None).0.table == if users == [] then s.table else Regenerated(s.table, tenant, users, p', Some(today), today);
    }
  }

  /** A removal with every statement answered takes the pattern away, and from its assignees the pattern, the start and the coming rows. */
  lemma RemovalIs(s: Office, id: string, tenant: string, staff: seq<string>, today: int)
    requires Clock(today) && forall u :: u in s.fields ==> u in staff
    ensures var (s', r) := Apply(s, Remove(id), tenant, staff, today, None);
            && (id !in s.patterns ==> r == Err(PatternNotFound) && s' == s)
            && (id in s.patterns ==>
                  && r == Ok(NoContent) && s'.patterns == s.patterns - {id} && s'.fields.Keys == s.fields.Keys
                  && (forall u :: u in s.fields ==>
                        s'.fields[u] == if s.fields[u].patternId == Some(id) then UserFields(None, s.fields[u].custom, None) else s.fields[u])
                  && (forall row :: multiset(s'.table)[row] ==
                        if row.tenant == tenant && row.user in s.fields && s.fields[row.user].patternId == Some(id) && row.date >= today then 0
                        else multiset(s.table)[row]))
  {
    hide Clock, Assigned, Remaining;
    AssignedAre(s.fields, staff, id);
    if id in s.patterns {
      var users := Assigned(s.fields, staff, id);
      var s' := Apply(s, Remove(id), tenant, staff, today, None).0;
      forall row
        ensures multiset(s'.table)[row] ==
                  if row.tenant == tenant && row.user in s.fields && s.fields[row.user].patternId == Some(id) && row.date >= today then 0
                  else multiset(s.table)[row]
      {
        RemainingCount(s.table, tenant, users, today, row);
      }
    }
  }

  lemma RemainingCount(table: seq<Row>, tenant: string, users: seq<string>, from: int, r: Row)
    ensures multiset(Remaining(table, tenant, users, from))[r] ==
            if r.tenant == tenant && r.user in users && from <= r.date then 0 else multiset(table)[r]
  {
    hide Select;
    SelectCount(table, (row: Row) => !(row.tenant == tenant && row.user in users && from <= row.date), r);
  }

  // ----- the start of a schedule -----

  /** What the validation of a date lets through here: YYYY-MM-DD with a month and a date of a calendar, or text that is no such date. */
  predicate Validated(s: string) {
    Parse(s).Some? ==> 1 <= Number(s[5..7]) <= 12 && 1 <= Number(s[8..])
  }

  lemma {:induction false} DigitsOfNumber(s: string)
    requires AllDigits(s)
    ensures Number(s) < Power10(|s|) && Digits(Number(s), |s|) == s
  {
    if s != "" {
      var init := s[..|s| - 1];
      DigitsOfNumber(init);
      assert s == init + [s[|s| - 1]];
    }
  }

  lemma DateTextsAreOrdered(y: nat, m: nat, d: nat, y': nat, m': nat, d': nat)
    requires y < 10000 && y' < 10000 && m < 100 && m' < 100 && d < 100 && d' < 100
    ensures Less(Digits(y, 4) + "-" + Digits(m, 2) + "-" + Digits(d, 2), Digits(y', 4) + "-" + Digits(m', 2) + "-" + Digits(d', 2))
            <==> Earlier(y, m, d, y', m', d')
  {
    hide Digits, Less;
    assert Power10(4) == 10000 && Power10(2) == 100;
    DigitsAreOrdered(y, y', 4); DigitsAreOrdered(m, m', 2); DigitsAreOrdered(d, d', 2);
    var (r, r') := ("-" + Digits(d, 2), "-" + Digits(d', 2));
    var (q, q') := ("-" + (Digits(m, 2) + r), "-" + (Digits(m', 2) + r'));
    assert Digits(y, 4) + "-" + Digits(m, 2) + "-" + Digits(d, 2) == Digits(y, 4) + q;
    assert Digits(y', 4) + "-" + Digits(m', 2) + "-" + Digits(d', 2) == Digits(y', 4) + q';
    LessByParts(Digits(y, 4), Digits(y', 4), q, q');
    LessByParts("-", "-", Digits(m, 2) + r, Digits(m', 2) + r');
    LessByParts(Digits(m, 2), Digits(m', 2), r, r');
    LessByParts("-", "-", Digits(d, 2), Digits(d', 2));
    DashIsNotLess();
  }

  /** A later year and month, or a later date of the same month, is a later day, even past the end of the month. */
  lemma LaterFields(day: int, y: int, m: int, dt: int)
    requires 0 <= m < 12 && 1 <= dt && Earlier(YearOf(day), MonthOf(day), DateOf(day), y, m, dt)
    ensures day < MakeDay(y, m, dt)
  {
    hide YearOf, MonthOf, DateOf, DayFromYear, MonthStart, MonthLength;
    DayBySum(day);
    var (z, k) := (YearOf(day), MonthOf(day));
    if z < y {
      MonthEndsWithinItsYear(z, k); YearLength(z); YearsBetween(z + 1, y);
    } else if k < m {
      MonthsAreOrdered(y, k, m);
    }
  }

  lemma MonthEndsWithinItsYear(y: int, m: int)
    requires 0 <= m < 12
    ensures DayFromYear(y) + MonthStart(y, m) + MonthLength(y, m) <= DayFromYear(y + 1)
  {
    MonthsFillTheYear(y); YearLength(y);
    if m < 12 { MonthsAreOrdered(y, m, 12); }
  }

  /** The texts are compared, but for validated dates the window never starts before today. */
  lemma FirstDayFromToday(start: string, today: int)
    requires Clock(today) && Validated(start)
    ensures FirstDay(Some(start), today).Some? ==> FirstDay(Some(start), today).value >= today
  {
    hide YearOf, MonthOf, DateOf, MakeDay, Number, Digits, Less, Format;
    ClockYears(today);
    ParseOfFormat(today);
    if start != "" && Less(Format(today), start) && Parse(start).Some? {
      var (y, m, d) := (Number(start[..4]), Number(start[5..7]), Number(start[8..]));
      DigitsOfNumber(start[..4]); DigitsOfNumber(start[5..7]); DigitsOfNumber(start[8..]);
      assert Power10(4) == 10000 && Power10(2) == 100;
      assert start == start[..4] + "-" + start[5..7] + "-" + start[8..];
      FormatIs(today);
      DateTextsAreOrdered(YearOf(today), MonthOf(today) + 1, DateOf(today), y, m, d);
      LaterFields(today, y, m - 1, d);
    }
  }

  lemma FormatIs(day: int)
    requires 0 <= YearOf(day) <= 9999
    ensures Format(day) == Digits(YearOf(day), 4) + "-" + Digits(MonthOf(day) + 1, 2) + "-" + Digits(DateOf(day), 2)
  {
  }

  // ----- every user follows the pattern -----

  function PatternOf(s: Office, u: string): Option<Pattern> {
    if u !in s.fields then None
    else if s.fields[u].patternId.Some? && s.fields[u].patternId.value in s.patterns then Some(s.patterns[s.fields[u].patternId.value])
    else s.fields[u].custom
  }

  /** What is left on day `now` of the window that was filled on day `asOf`. */
  function Left(p: Pattern, first: Option<int>, asOf: int, now: int): seq<DatedShift> {
    if first.None? then [] else Span(p, if first.value >= now then first.value else now, asOf + ROLLING_WINDOW_DAYS)
  }

  /** One filling of a user's window: its pattern, its day, its first day, and how often the user was mentioned. */
  datatype Fill = Fill(pattern: Pattern, day: int, first: Option<int>, copies: nat)

  /**
   What is known of a user: the filling that the coming rows are from, if they are from one, and whether every
   operation that changed the user's pattern since has also brought the rows in line.
   */
  datatype Content = Content(fill: Option<Fill>, settled: bool)

  /** What an operation makes of a user. */
  function ContentBy(was: Content, s: Office, op: Op, staff: seq<string>, today: int, stop: Option<Statement>, u: string): Content
    requires Clock(today)
  {
    match op
    case Create(_, _) => was
    case Assign(users, _, _, start) =>
      if Refusal(s, op, staff, stop).None? && u in users
      then Regenerating(was, users, Fill(Resolved(s, op), today, FirstDay(Some(start), today), multiset(users)[u]), stop) else was
    case Edit(id, edit) =>
      if stop != Some(PatternLookup) && stop != Some(PatternWrite) && id in s.patterns && u in Assigned(s.fields, staff, id)
      then
        if stop == Some(AssigneeQuery) then was.(settled := false)
        else Regenerating(was, Assigned(s.fields, staff, id), Fill(Edited(s.patterns[id], edit), today, Some(today), 1), stop)
      else was
    case Remove(id) =>
      if stop != Some(PatternLookup) && stop != Some(AssigneeQuery) && stop != Some(PatternWrite) && id in s.patterns && u in Assigned(s.fields, staff, id)
      then if stop == Some(ColumnsWrite) || stop == Some(Deletion) then was.(settled := false) else Content(None, true)
      else was
  }

  /** A regeneration that fails leaves the old rows or none. */
  function Regenerating(was: Content, users: seq<string>, fill: Fill, stop: Option<Statement>): Content {
    if stop == Some(Deletion) then was.(settled := false)
    else if CreationFails(users, BulkSpan(fill.pattern, fill.first, Some(fill.day + ROLLING_WINDOW_DAYS)), stop) then Content(None, false)
    else Content(Some(fill), true)
  }

  /**
   The coming rows of a user are what is left of the recorded filling, or none; for a settled user its pattern is
   the user's present one, and there is no filling exactly when there is no pattern.
   */
  ghost predicate Follows(s: Office, tenant: string, u: string, now: int, c: Content) {
    && u in s.fields
    && (c.settled ==> PatternOf(s, u) == if c.fill.Some? then Some(c.fill.value.pattern) else None)
    && match c.fill
       case None => Future(s.table, tenant, u, now) == []
       case Some(f) =>
         && f.day <= now && (f.first.Some? ==> f.first.value >= f.day)
         && Future(s.table, tenant, u, now) == Copies(RowsOf(tenant, u, None, Left(f.pattern, f.first, f.day, now)), f.copies)
  }

  // ----- a day passes -----

  lemma RowsOfBoth(tenant: string, u: string, a: seq<DatedShift>, b: seq<DatedShift>)
    ensures RowsOf(tenant, u, None, a + b) == RowsOf(tenant, u, None, a) + RowsOf(tenant, u, None, b)
  {
  }

  lemma DatedIsThatDay(day: int, shifts: seq<Shift>)
    ensures forall x :: x in Dated(day, shifts) ==> x.date == day
  {
  }

  /** The rows of a span that are all on or after a day, or all before it. */
  lemma AllOrNone(tenant: string, u: string, span: seq<DatedShift>, now: int)
    ensures (forall x :: x in span ==> now <= x.date) ==> Future(RowsOf(tenant, u, None, span), tenant, u, now) == RowsOf(tenant, u, None, span)
    ensures (forall x :: x in span ==> x.date < now) ==> Future(RowsOf(tenant, u, None, span), tenant, u, now) == []
  {
    hide Select, RowsOf;
    var mine := (r: Row) => r.tenant == tenant && r.user == u && now <= r.date;
    RowsAreTheUsers(tenant, u, None, span);
    if forall x :: x in span ==> now <= x.date { SelectAll(RowsOf(tenant, u, None, span), mine); }
    if forall x :: x in span ==> x.date < now { SelectNone(RowsOf(tenant, u, None, span), mine); }
  }

  lemma {:induction false} LaterSpan(tenant: string, u: string, p: Pattern, from: int, till: int, now: int)
    requires from <= now
    ensures Future(RowsOf(tenant, u, None, Span(p, from, till)), tenant, u, now) == RowsOf(tenant, u, None, Span(p, now, till))
    decreases till - from
  {
    hide DayShifts, Select, RowsOf, Dated;
    if till < now {
      SpanInRange(p, from, till);
      AllOrNone(tenant, u, Span(p, from, till), now);
      NothingLater(tenant, u, now);
    } else {
      LaterSpan(tenant, u, p, from, till - 1, now);
      var (init, day) := (Span(p, from, till - 1), Dated(till, DayShifts(p, till)));
      RowsOfBoth(tenant, u, init, day); RowsOfBoth(tenant, u, Span(p, now, till - 1), day);
      SelectAppend(RowsOf(tenant, u, None, init), RowsOf(tenant, u, None, day), (r: Row) => r.tenant == tenant && r.user == u && now <= r.date);
      DatedIsThatDay(till, DayShifts(p, till));
      AllOrNone(tenant, u, day, now);
    }
  }

  lemma {:induction false} CopiesLater(tenant: string, u: string, rows: seq<Row>, n: nat, later: int)
    ensures Future(Copies(rows, n), tenant, u, later) == Copies(Future(rows, tenant, u, later), n)
  {
    hide Select;
    var mine := (r: Row) => r.tenant == tenant && r.user == u && later <= r.date;
    if n == 0 { SelectNone([], mine); } else {
      CopiesLater(tenant, u, rows, n - 1, later);
      SelectAppend(Copies(rows, n - 1), rows, mine);
    }
  }

  lemma DayPasses(s: Office, tenant: string, u: string, now: int, later: int, c: Content)
    requires Follows(s, tenant, u, now, c) && now <= later
    ensures Follows(s, tenant, u, later, c)
  {
    hide Select, RowsOf, Span, Copies, PatternOf;
    SelectTwice(s.table, (r: Row) => r.tenant == tenant && r.user == u && now <= r.date,
                (r: Row) => r.tenant == tenant && r.user == u && later <= r.date);
    if c.fill.Some? {
      var f := c.fill.value;
      CopiesLater(tenant, u, RowsOf(tenant, u, None, Left(f.pattern, f.first, f.day, now)), f.copies, later);
      if f.first.Some? {
        LaterOfLater(tenant, u, f.pattern, now, later, f.day, f.first.value);
      } else {
        NothingLater(tenant, u, later);
      }
    } else {
      SelectNone([], (r: Row) => r.tenant == tenant && r.user == u && later <= r.date);
    }
  }

  lemma NothingLater(tenant: string, u: string, later: int)
    ensures Future(RowsOf(tenant, u, None, []), tenant, u, later) == RowsOf(tenant, u, None, []) == []
  {
  }

  /** When the window has not started yet, looking from a later day before its start sees all of it. */
  lemma LaterOfLater(tenant: string, u: string, p: Pattern, now: int, later: int, day: int, first: int)
    requires now <= later
    ensures var from := if first >= now then first else now;
            Future(RowsOf(tenant, u, None, Span(p, from, day + ROLLING_WINDOW_DAYS)), tenant, u, later) ==
            RowsOf(tenant, u, None, Span(p, if first >= later then first else later, day + ROLLING_WINDOW_DAYS))
  {
    hide Select, Span;
    var till := day + ROLLING_WINDOW_DAYS;
    var from := if first >= now then first else now;
    if first >= later {
      SpanInRange(p, from, till);
      AllOrNone(tenant, u, Span(p, from, till), later);
    } else {
      LaterSpan(tenant, u, p, from, till, later);
    }
  }

  // ----- the operations -----

  ghost predicate TablesOk(s: Office, staff: seq<string>) {
    && Distinct(staff) && (forall u :: u in s.fields <==> u in staff)
    && (forall u :: u in s.fields && s.fields[u].patternId.Some? ==> s.fields[u].patternId.value in s.patterns && s.fields[u].custom.None?)
  }

  /** Each user follows what is recorded for the user. */
  ghost predicate Sound(s: Office, tenant: string, staff: seq<string>, now: int, contents: map<string, Content>) {
    TablesOk(s, staff) && forall u :: u in staff ==> Follows(s, tenant, u, now, ContentOf(contents, u))
  }

  /** At first nobody has a pattern or a coming row. */
  function ContentOf(contents: map<string, Content>, u: string): Content {
    if u in contents then contents[u] else Content(None, true)
  }

  /** What is known of each user, kept up to date. */
  function ContentsAfter(contents: map<string, Content>, s: Office, op: Op, staff: seq<string>, today: int, stop: Option<Statement>): map<string, Content>
    requires Clock(today)
  {
    map u | u in staff :: ContentBy(ContentOf(contents, u), s, op, staff, today, stop, u)
  }

  lemma OneContent(contents: map<string, Content>, s: Office, op: Op, staff: seq<string>, today: int, stop: Option<Statement>, u: string)
    requires Clock(today) && u in staff
    ensures ContentOf(ContentsAfter(contents, s, op, staff, today, stop), u) == ContentBy(ContentOf(contents, u), s, op, staff, today, stop, u)
  {
    hide ContentBy, Clock;
  }

  /** A user whose columns, pattern and coming rows an operation leaves alone. */
  lemma Untouched(s: Office, s': Office, tenant: string, u: string, now: int, c: Content)
    requires Follows(s, tenant, u, now, c) && u in s'.fields
    requires PatternOf(s', u) == PatternOf(s, u) && Future(s'.table, tenant, u, now) == Future(s.table, tenant, u, now)
    ensures Follows(s', tenant, u, now, c)
  {
    hide Future, RowsOf, Left, Copies, PatternOf;
  }

  /** A user whose coming rows an operation leaves alone when it changes the pattern. */
  lemma Unsettled(s: Office, s': Office, tenant: string, u: string, now: int, c: Content)
    requires Follows(s, tenant, u, now, c) && u in s'.fields && s'.table == s.table
    ensures Follows(s', tenant, u, now, c.(settled := false))
  {
    hide Future, RowsOf, Left, Copies, PatternOf;
  }

  /** A user whose coming rows have been deleted: settled when the user has no pattern. */
  lemma Emptied(s: Office, s': Office, tenant: string, users: seq<string>, u: string, now: int, settled: bool)
    requires u in users && u in s'.fields && s'.table == Remaining(s.table, tenant, users, now) && (settled ==> PatternOf(s', u).None?)
    ensures Future(s'.table, tenant, u, now) == [] && Follows(s', tenant, u, now, Content(None, settled))
  {
    hide Select, PatternOf;
    DeletionIsExact(s.table, tenant, users, now, u, (r: Row) => false);
  }

  lemma OthersKeepTheirRows(table: seq<Row>, tenant: string, users: seq<string>, u: string, now: int)
    requires u !in users
    ensures Future(Remaining(table, tenant, users, now), tenant, u, now) == Future(table, tenant, u, now)
  {
    hide Select;
    DeletionIsExact(table, tenant, users, now, u, (r: Row) => r.tenant == tenant && r.user == u && now <= r.date);
  }

  /** A user whose window has just been filled with the user's pattern. */
  lemma JustFilled(s: Office, s': Office, tenant: string, users: seq<string>, u: string, p: Pattern, first: Option<int>, now: int)
    requires u in users && u in s'.fields && PatternOf(s', u) == Some(p) && (first.Some? ==> first.value >= now)
    requires s'.table == Regenerated(s.table, tenant, users, p, first, now)
    ensures Follows(s', tenant, u, now, Content(Some(Fill(p, now, first, multiset(users)[u])), true))
  {
    hide Regenerated, Future, RowsOf, PatternOf, Copies;
    RegenerationIsExact(s.table, tenant, users, p, first, now, u);
  }

  /** A regeneration however it ends: for one of its users, and for everyone else. */
  lemma RegenerationKeeps(s: Office, s': Office, tenant: string, users: seq<string>, u: string, p: Pattern, first: Option<int>, now: int,
                          stop: Option<Statement>, c: Content)
    requires Follows(s, tenant, u, now, c) && u in s'.fields && (first.Some? ==> first.value >= now)
    requires s'.table == Regeneration(s.table, tenant, users, p, first, now, stop).0
    requires PatternOf(s', u) == if u in users then Some(p) else PatternOf(s, u)
    ensures Follows(s', tenant, u, now, if u in users then Regenerating(c, users, Fill(p, now, first, multiset(users)[u]), stop) else c)
  {
    hide Follows, Regenerated, PatternOf, Select;
    if u in users {
      if stop == Some(Deletion) {
        Unsettled(s, s', tenant, u, now, c);
      } else if s'.table == Regenerated(s.table, tenant, users, p, first, now) && !CreationFails(users, BulkSpan(p, first, Some(now + ROLLING_WINDOW_DAYS)), stop) {
        JustFilled(s, s', tenant, users, u, p, first, now);
      } else {
        Emptied(s, s', tenant, users, u, now, false);
      }
    } else {
      RegenerationIsExact(s.table, tenant, users, p, first, now, u);
      OthersKeepTheirRows(s.table, tenant, users, u, now);
      Untouched(s, s', tenant, u, now, c);
    }
  }

  predicate Wellformed(op: Op) {
    op.Assign? ==> Validated(op.start)
  }

  lemma AssignKeepsSound(s: Office, op: Op, tenant: string, staff: seq<string>, today: int, stop: Option<Statement>, contents: map<string, Content>)
    requires Sound(s, tenant, staff, today, contents) && Clock(today) && op.Assign? && Wellformed(op)
    ensures Sound(Apply(s, op, tenant, staff, today, stop).0, tenant, staff, today, ContentsAfter(contents, s, op, staff, today, stop))
  {
    hide Follows, Clock, Regeneration, Regenerating, FirstDay, Validated, UsersRefused, ContentsAfter, ContentOf;
    var s' := Apply(s, op, tenant, staff, today, stop).0;
    var contents' := ContentsAfter(contents, s, op, staff, today, stop);
    forall u | u in staff ensures Follows(s', tenant, u, today, ContentOf(contents', u)) {
      OneContent(contents, s, op, staff, today, stop, u);
      if Refusal(s, op, staff, stop).None? {
        FirstDayFromToday(op.start, today);
        RegenerationKeeps(s, s', tenant, op.users, u, Resolved(s, op), FirstDay(Some(op.start), today), today, stop, ContentOf(contents, u));
      }
    }
  }

  lemma CreateKeepsSound(s: Office, op: Op, tenant: string, staff: seq<string>, today: int, stop: Option<Statement>, contents: map<string, Content>)
    requires Sound(s, tenant, staff, today, contents) && Clock(today) && op.Create?
    ensures Sound(Apply(s, op, tenant, staff, today, stop).0, tenant, staff, today, ContentsAfter(contents, s, op, staff, today, stop))
  {
    hide Follows, Clock, ContentsAfter, ContentOf;
    var s' := Apply(s, op, tenant, staff, today, stop).0;
    forall u | u in staff ensures Follows(s', tenant, u, today, ContentOf(ContentsAfter(contents, s, op, staff, today, stop), u)) {
      OneContent(contents, s, op, staff, today, stop, u);
      Untouched(s, s', tenant, u, today, ContentOf(contents, u));
    }
  }

  lemma {:induction false} CountedOnce(xs: seq<string>, x: string)
    requires Distinct(xs) && x in xs
    ensures multiset(xs)[x] == 1
  {
    var n := |xs| - 1;
    assert xs == xs[..n] + [xs[n]];
    if x in xs[..n] { CountedOnce(xs[..n], x); }
  }

  lemma EditKeepsSound(s: Office, op: Op, tenant: string, staff: seq<string>, today: int, stop: Option<Statement>, contents: map<string, Content>)
    requires Sound(s, tenant, staff, today, contents) && Clock(today) && op.Edit?
    ensures Sound(Apply(s, op, tenant, staff, today, stop).0, tenant, staff, today, ContentsAfter(contents, s, op, staff, today, stop))
  {
    hide Follows, Clock, Regeneration, Regenerating, Assigned, ContentsAfter, ContentOf;
    var s' := Apply(s, op, tenant, staff, today, stop).0;
    var users := Assigned(s.fields, staff, op.id);
    AssignedAre(s.fields, staff, op.id);
    forall u | u in staff ensures Follows(s', tenant, u, today, ContentOf(ContentsAfter(contents, s, op, staff, today, stop), u)) {
      var c := ContentOf(contents, u);
      OneContent(contents, s, op, staff, today, stop, u);
      if u in users { CountedOnce(users, u); }
      if stop == Some(PatternLookup) || stop == Some(PatternWrite) || op.id !in s.patterns {
      } else if stop == Some(AssigneeQuery) || users == [] {
        if u in users { Unsettled(s, s', tenant, u, today, c); } else { Untouched(s, s', tenant, u, today, c); }
      } else {
        RegenerationKeeps(s, s', tenant, users, u, s'.patterns[op.id], Some(today), today, stop, c);
      }
    }
  }

  lemma RemoveKeepsSound(s: Office, op: Op, tenant: string, staff: seq<string>, today: int, stop: Option<Statement>, contents: map<string, Content>)
    requires Sound(s, tenant, staff, today, contents) && Clock(today) && op.Remove?
    ensures Sound(Apply(s, op, tenant, staff, today, stop).0, tenant, staff, today, ContentsAfter(contents, s, op, staff, today, stop))
    ensures Apply(s, op, tenant, staff, today, stop).1.Ok? ==> forall u :: u in Assigned(s.fields, staff, op.id) ==>
              Future(Apply(s, op, tenant, staff, today, stop).0.table, tenant, u, today) == []
  {
    hide Follows, Clock, Select, Remaining, Assigned, ContentsAfter, ContentOf, ContentBy, Apply, TablesOk;
    var (s', r) := Apply(s, op, tenant, staff, today, stop);
    var users := Assigned(s.fields, staff, op.id);
    AssignedAre(s.fields, staff, op.id);
    RemoveKeepsTables(s, op, tenant, staff, today, stop);
    forall u | u in staff
      ensures Follows(s', tenant, u, today, ContentOf(ContentsAfter(contents, s, op, staff, today, stop), u))
      ensures r.Ok? && u in users ==> Future(s'.table, tenant, u, today) == []
    {
      OneContent(contents, s, op, staff, today, stop, u);
      RemoveKeepsOne(s, op, tenant, staff, today, stop, u, ContentOf(contents, u));
    }
  }

  lemma RemoveKeepsTables(s: Office, op: Op, tenant: string, staff: seq<string>, today: int, stop: Option<Statement>)
    requires TablesOk(s, staff) && Clock(today) && op.Remove?
    ensures TablesOk(Apply(s, op, tenant, staff, today, stop).0, staff)
  {
    hide Clock, Remaining, Assigned;
    AssignedAre(s.fields, staff, op.id);
  }

  lemma RemoveKeepsOne(s: Office, op: Op, tenant: string, staff: seq<string>, today: int, stop: Option<Statement>, u: string, c: Content)
    requires TablesOk(s, staff) && Follows(s, tenant, u, today, c) && Clock(today) && op.Remove? && u in staff
    ensures var (s', r) := Apply(s, op, tenant, staff, today, stop);
            && Follows(s', tenant, u, today, ContentBy(c, s, op, staff, today, stop, u))
            && (r.Ok? && u in Assigned(s.fields, staff, op.id) ==> Future(s'.table, tenant, u, today) == [])
  {
    hide Follows, Clock, Select, Remaining, Assigned;
    var (s', r) := Removed(s, op.id, tenant, staff, today, stop);
    var users := Assigned(s.fields, staff, op.id);
    AssignedAre(s.fields, staff, op.id);
    if stop == Some(PatternLookup) || stop == Some(AssigneeQuery) || stop == Some(PatternWrite) || op.id !in s.patterns {
    } else if u !in users {
      OthersKeepTheirRows(s.table, tenant, users, u, today);
      Untouched(s, s', tenant, u, today, c);
    } else if r.Err? {
      Unsettled(s, s', tenant, u, today, c);
    } else {
      Emptied(s, s', tenant, users, u, today, true);
    }
  }

  // ----- runs -----

  datatype Event = Event(op: Op, day: int, stop: Option<Statement>)

  function Run(s: Office, run: seq<Event>, tenant: string, staff: seq<string>): Office
    requires forall i :: 0 <= i < |run| ==> Clock(run[i].day)
  {
    if run == [] then s
    else
      var e := run[|run| - 1];
      Apply(Run(s, run[..|run| - 1], tenant, staff), e.op, tenant, staff, e.day, e.stop).0
  }

  /** What the operations of the run made of each user. */
  function Contents(s: Office, run: seq<Event>, tenant: string, staff: seq<string>): map<string, Content>
    requires forall i :: 0 <= i < |run| ==> Clock(run[i].day)
  {
    if run == [] then map[]
    else
      var (init, e) := (run[..|run| - 1], run[|run| - 1]);
      ContentsAfter(Contents(s, init, tenant, staff), Run(s, init, tenant, staff), e.op, staff, e.day, e.stop)
  }

  /** An office in which nobody has a pattern or a coming row yet; there may be patterns, past rows and rows of other tenants. */
  ghost predicate Vacant(s: Office, tenant: string, staff: seq<string>, start: int) {
    && Distinct(staff) && (forall u :: u in s.fields <==> u in staff)
    && (forall u :: u in staff ==> s.fields[u].patternId.None? && s.fields[u].custom.None? && Future(s.table, tenant, u, start) == [])
  }

  lemma VacantIsSound(s: Office, tenant: string, staff: seq<string>, start: int)
    requires Vacant(s, tenant, staff, start)
    ensures Sound(s, tenant, staff, start, map[])
  {
    hide Select;
  }

  lemma StepKeepsSound(s: Office, op: Op, tenant: string, staff: seq<string>, today: int, stop: Option<Statement>, contents: map<string, Content>)
    requires Sound(s, tenant, staff, today, contents) && Clock(today) && Wellformed(op)
    ensures Sound(Apply(s, op, tenant, staff, today, stop).0, tenant, staff, today, ContentsAfter(contents, s, op, staff, today, stop))
  {
    hide Apply, Clock, Sound, ContentsAfter;
    match op {
      case Create(_, _) => CreateKeepsSound(s, op, tenant, staff, today, stop, contents);
      case Assign(_, _, _, _) => AssignKeepsSound(s, op, tenant, staff, today, stop, contents);
      case Edit(_, _) => EditKeepsSound(s, op, tenant, staff, today, stop, contents);
      case Remove(_) => RemoveKeepsSound(s, op, tenant, staff, today, stop, contents);
    }
  }

  lemma DaysPass(s: Office, tenant: string, staff: seq<string>, now: int, later: int, contents: map<string, Content>)
    requires Sound(s, tenant, staff, now, contents) && now <= later
    ensures Sound(s, tenant, staff, later, contents)
  {
    hide Follows, ContentOf;
    forall u | u in staff ensures Follows(s, tenant, u, later, ContentOf(contents, u)) { DayPasses(s, tenant, u, now, later, ContentOf(contents, u)); }
  }

  /**
   Over any run of creations, assignments, edits and removals on any days in order, refused ones and ones that a
   failing statement breaks off anywhere included, and seen from any day since: the coming rows of every user are
   what is left of the window recorded for the user, or none; and a settled user has that window's pattern, or none.
   */
  lemma {:induction false} EveryoneFollowsTheirPattern(s: Office, run: seq<Event>, tenant: string, staff: seq<string>, start: int, now: int)
    requires Vacant(s, tenant, staff, start) && start <= now
    requires forall i :: 0 <= i < |run| ==> Clock(run[i].day) && Wellformed(run[i].op) && start <= run[i].day <= now
    requires forall i, j :: 0 <= i <= j < |run| ==> run[i].day <= run[j].day
    ensures Sound(Run(s, run, tenant, staff), tenant, staff, now, Contents(s, run, tenant, staff))
    decreases |run|
  {
    hide Apply, Clock, Sound, Wellformed, Vacant, ContentsAfter;
    if run == [] {
      VacantIsSound(s, tenant, staff, start);
      DaysPass(s, tenant, staff, start, now, map[]);
    } else {
      var init, e := run[..|run| - 1], run[|run| - 1];
      EveryoneFollowsTheirPattern(s, init, tenant, staff, start, e.day);
      StepKeepsSound(Run(s, init, tenant, staff), e.op, tenant, staff, e.day, e.stop, Contents(s, init, tenant, staff));
      DaysPass(Run(s, run, tenant, staff), tenant, staff, e.day, now, Contents(s, run, tenant, staff));
    }
  }

  // ----- who is settled -----

  /** An operation takes a user's settlement away only by answering with an error of the database. */
  lemma OnlyFailuresUnsettle(was: Content, s: Office, op: Op, tenant: string, staff: seq<string>, today: int, stop: Option<Statement>, u: string)
    requires Clock(today) && was.settled && u in staff
    ensures ContentBy(was, s, op, staff, today, stop, u).settled || Apply(s, op, tenant, staff, today, stop).1 == Err(DatabaseFailed)
  {
    hide Clock, Regenerated, FirstDay, BulkSpan, UsersRefused;
    AssignedAre(s.fields, staff, if op.Remove? || op.Edit? then op.id else "");
  }

  /** Whose pattern an operation is about. */
  predicate Concerns(s: Office, op: Op, staff: seq<string>, u: string) {
    match op
    case Create(_, _) => false
    case Assign(users, _, _, _) => u in users
    case Edit(id, _) => u in Assigned(s.fields, staff, id)
    case Remove(id) => u in Assigned(s.fields, staff, id)
  }

  /** A success settles everyone it is about, whatever failures came before: repeating a failed operation repairs its users. */
  lemma SuccessSettles(was: Content, s: Office, op: Op, tenant: string, staff: seq<string>, today: int, stop: Option<Statement>, u: string)
    requires Clock(today) && u in staff && Apply(s, op, tenant, staff, today, stop).1.Ok?
    requires Concerns(s, op, staff, u)
    ensures ContentBy(was, s, op, staff, today, stop, u).settled
  {
    hide Clock, Regenerated, FirstDay, BulkSpan, UsersRefused;
  }

  /** Without an error of the database in the answers everyone is settled. */
  lemma {:induction false} SettledWithoutFailures(s: Office, run: seq<Event>, tenant: string, staff: seq<string>, u: string)
    requires u in staff && forall i :: 0 <= i < |run| ==> Clock(run[i].day)
    requires forall i :: 0 <= i < |run| ==>
               Apply(Run(s, run[..i], tenant, staff), run[i].op, tenant, staff, run[i].day, run[i].stop).1 != Err(DatabaseFailed)
    ensures ContentOf(Contents(s, run, tenant, staff), u).settled
  {
    hide Apply, Clock, ContentBy, ContentsAfter;
    if run != [] {
      var init, e := run[..|run| - 1], run[|run| - 1];
      assert forall i :: 0 <= i < |init| ==> init[..i] == run[..i];
      SettledWithoutFailures(s, init, tenant, staff, u);
      OneContent(Contents(s, init, tenant, staff), Run(s, init, tenant, staff), e.op, staff, e.day, e.stop, u);
      OnlyFailuresUnsettle(ContentOf(Contents(s, init, tenant, staff), u), Run(s, init, tenant, staff), e.op, tenant, staff, e.day, e.stop, u);
    }
  }

  /** What a refused insert leaves of an assignment: the columns of the new pattern, and not one coming row. */
  lemma RefusedInsertLeavesNoRows(s: Office, op: Op, tenant: string, staff: seq<string>, today: int, u: string)
    requires Clock(today) && op.Assign? && Wellformed(op) && u in op.users && u in s.fields
    requires Apply(s, op, tenant, staff, today, None).1.Ok? && Window(Resolved(s, op), FirstDay(Some(op.start), today), today) != []
    ensures var (s', r) := Apply(s, op, tenant, staff, today, Some(Creation(|op.users| + 1)));
            r == Err(DatabaseFailed) && PatternOf(s', u) == Some(Resolved(s, op)) && Future(s'.table, tenant, u, today) == []
  {
    hide Clock, Select, FirstDay, Validated, Span;
    FirstDayFromToday(op.start, today);
    DeletionIsExact(s.table, tenant, op.users, today, u, (r: Row) => false);
  }

  // ----- an edit and the start date -----

  lemma {:induction false} SpanSplit(p: Pattern, from: int, mid: int, till: int)
    requires from <= mid <= till + 1
    ensures Span(p, from, till) == Span(p, from, mid - 1) + Span(p, mid, till)
    decreases till - from
  {
    hide DayShifts;
    if mid <= till { SpanSplit(p, from, mid, till - 1); }
  }

  /**
   An edit reaches every assignee at once, from today on. It does not look at the start date: a user who starts
   later also gets the days before the start, and only if the pattern works on one of them.
   */
  lemma EditReachesEveryAssignee(s: Office, id: string, edit: PatternEdit, tenant: string, staff: seq<string>, today: int, u: string, start: int)
    requires Clock(today) && Distinct(staff) && id in s.patterns && u in staff && u in s.fields && s.fields[u].patternId == Some(id)
    requires today <= start <= today + ROLLING_WINDOW_DAYS
    ensures var p := Edited(s.patterns[id], edit);
            Future(Apply(s, Edit(id, edit), tenant, staff, today, None).0.table, tenant, u, today) ==
            RowsOf(tenant, u, None, Span(p, today, start - 1)) + RowsOf(tenant, u, None, Window(p, Some(start), today))
  {
    hide Span, Clock, RowsOf, Assigned, Future, Copies, Regenerated, Remaining, FirstDay, BulkSpan;
    var p := Edited(s.patterns[id], edit);
    AssignedAre(s.fields, staff, id);
    CountedOnce(Assigned(s.fields, staff, id), u);
    RegenerationIsExact(s.table, tenant, Assigned(s.fields, staff, id), p, Some(today), today, u);
    OneCopy(RowsOf(tenant, u, None, Window(p, Some(today), today)));
    SpanSplit(p, today, start, today + ROLLING_WINDOW_DAYS);
    var (a, b) := (Span(p, today, start - 1), Span(p, start, today + ROLLING_WINDOW_DAYS));
    RowsOfBoth(tenant, u, a, b);
  }

  lemma OneCopy(rows: seq<Row>)
    ensures Copies(rows, 1) == rows
  {
    assert Copies(rows, 1) == Copies(rows, 0) + rows;
  }
}
