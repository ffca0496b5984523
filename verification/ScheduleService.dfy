/** The schedule services as they run: loops that build the rows, and tables that are written in place. */
module ScheduleService {
  import opened Options
  import opened Calendar
  import opened Schedules
  import opened ShiftPatterns

  datatype BulkRequest = BulkRequest(users: seq<string>, branch: Option<string>, dateFrom: string, dateTo: string, pattern: Pattern)

  class SchedulesRepository {
    var table: seq<Row>
    const tenant: string
    const staff: seq<string>
    const branches: set<string>

    constructor (tenant: string, staff: seq<string>, branches: set<string>)
      ensures table == [] && this.tenant == tenant && this.staff == staff && this.branches == branches
    {
      table := [];
      this.tenant, this.staff, this.branches := tenant, staff, branches;
    }

    method BulkCreate(rows: seq<Row>)
      modifies this
      ensures table == old(table) + rows
    {
      table := table + rows;
    }

    method DeleteFrom(users: seq<string>, fromDate: int)
      modifies this
      ensures table == Remaining(old(table), tenant, users, fromDate)
    {
      table := Remaining(table, tenant, users, fromDate);
    }
  }

  /** What a bulk request is answered with when the query with number `fails` is not answered: a user check, the branch check, or the insert. */
  function BulkAnswer(dto: BulkRequest, tenant: string, staff: seq<string>, branches: set<string>, fails: Option<nat>): Result<seq<Row>> {
    if UsersRefused(dto.users, staff, fails).Some? then Err(UsersRefused(dto.users, staff, fails).value)
    else if dto.branch.Some? && fails == Some(|dto.users|) then Err(DatabaseFailed)
    else if dto.branch.Some? && dto.branch.value !in branches then Err(BranchNotFound)
    else
      match BulkSpan(dto.pattern, Parse(dto.dateFrom), Parse(dto.dateTo))
      case Err(e) => Err(e)
      case Ok(span) =>
        if span != [] && fails == Some(|dto.users| + 1) then Err(DatabaseFailed) else Ok(AllRows(tenant, dto.users, dto.branch, span))
  }

  /** The rows of an answer are those the request asks for, each as often as it says; without two dates there are none. */
  ghost predicate RowsAsAsked(rows: seq<Row>, dto: BulkRequest, tenant: string) {
    var (from, till) := (Parse(dto.dateFrom), Parse(dto.dateTo));
    if from.None? || till.None? then rows == []
    else forall row :: OccursAsAsked(multiset(rows)[row], row, tenant, dto.users, dto.branch, dto.pattern, from.value, till.value)
  }

  /**
   A bulk request is accepted exactly when its users are there, its branch is there if it names one, and its dates are not
   reversed, unless a query it comes to is not answered; each refusal says which condition is not met.
   */
  lemma BulkAnswerIs(dto: BulkRequest, tenant: string, staff: seq<string>, branches: set<string>, fails: Option<nat>)
    ensures var r := BulkAnswer(dto, tenant, staff, branches, fails);
            var staffed := forall u :: u in dto.users ==> u in staff;
            var placed := dto.branch.None? || dto.branch.value in branches;
            var (from, till) := (Parse(dto.dateFrom), Parse(dto.dateTo));
            var reversed := from.Some? && till.Some? && till.value < from.value;
            && (r.Ok? ==> staffed && placed && !reversed && RowsAsAsked(r.value, dto, tenant))
            && (r == Err(BranchNotFound) ==> staffed && !placed)
            && (r == Err(DateOrder) ==> staffed && placed && reversed)
            && (r == Err(DatabaseFailed) ==> fails.Some?)
            && (forall u :: r == Err(UserNotFound(u)) ==> u in dto.users && u !in staff)
            && (r.Err? ==> r.error in {BranchNotFound, DateOrder, DatabaseFailed} || r.error.UserNotFound?)
            && (staffed && placed && !reversed && fails.None? ==> r.Ok?)
  {
    hide Parse, Span, AllRows, OccursAsAsked, FirstMissing;
    UsersRefusedFor(dto.users, staff, fails);
    NobodyMissing(if fails.Some? && fails.value < |dto.users| then dto.users[..fails.value] else dto.users, staff);
    var (from, till) := (Parse(dto.dateFrom), Parse(dto.dateTo));
    if from.Some? && till.Some? {
      forall row
        ensures OccursAsAsked(multiset(AllRows(tenant, dto.users, dto.branch, Span(dto.pattern, from.value, till.value)))[row], row,
                              tenant, dto.users, dto.branch, dto.pattern, from.value, till.value)
      {
        BulkRowsAreExactly(tenant, dto.users, dto.branch, dto.pattern, from.value, till.value, row);
      }
    } else {
      NoSpanNoRows(tenant, dto.users, dto.branch);
    }
  }

  /** The users are looked up one after the other; the first that is missing or not answered ends it. */
  method CheckUsers(users: seq<string>, staff: seq<string>, fails: Option<nat>) returns (refused: Option<ScheduleError>)
    ensures refused == UsersRefused(users, staff, fails)
  {
    refused := None;
    for i := 0 to |users|
      invariant refused.None?
      invariant forall j :: i <= j <= |users| ==> FirstMissing(users[..j], staff) == FirstMissing(users[i..j], staff)
      invariant fails.Some? ==> fails.value >= i
    {
      assert users[..|users|] == users;
      if fails == Some(i) { return Some(DatabaseFailed); }
      FirstOf(users, staff, i);
      if users[i] !in staff { return Some(UserNotFound(users[i])); }
    }
    assert users[..|users|] == users;
  }

  lemma FirstOf(users: seq<string>, staff: seq<string>, i: nat)
    requires i < |users|
    ensures forall j :: i < j <= |users| ==>
              FirstMissing(users[i..j], staff) == if users[i] in staff then FirstMissing(users[i + 1..j], staff) else Some(users[i])
  {
    forall j | i < j <= |users|
      ensures FirstMissing(users[i..j], staff) == if users[i] in staff then FirstMissing(users[i + 1..j], staff) else Some(users[i])
    {
      assert users[i..j][1..] == users[i + 1..j];
    }
  }

  class SchedulesService {
    const repo: SchedulesRepository

    constructor (repo: SchedulesRepository)
      ensures this.repo == repo
    {
      this.repo := repo;
    }

    method BulkCreate(dto: BulkRequest, fails: Option<nat>) returns (r: Result<seq<Row>>)
      modifies repo
      ensures r == BulkAnswer(dto, repo.tenant, repo.staff, repo.branches, fails)
      ensures repo.table == old(repo.table) + if r.Ok? then r.value else []
      ensures r.Ok? ==> RowsAsAsked(r.value, dto, repo.tenant)
      ensures var fine := && (forall u :: u in dto.users ==> u in repo.staff) && (dto.branch.None? || dto.branch.value in repo.branches)
                          && !(Parse(dto.dateFrom).Some? && Parse(dto.dateTo).Some? && Parse(dto.dateTo).value < Parse(dto.dateFrom).value);
              (r.Ok? ==> fine) && (fine ==> r.Ok? || r == Err(DatabaseFailed)) && (fine && fails.None? ==> r.Ok?)
    {
      hide Parse, Span, AllRows, FirstMissing, RowsAsAsked;
      BulkAnswerIs(dto, repo.tenant, repo.staff, repo.branches, fails);
      var refused := CheckUsers(dto.users, repo.staff, fails);
      if refused.Some? { return Err(refused.value); }
      if dto.branch.Some? && fails == Some(|dto.users|) { return Err(DatabaseFailed); }
      if dto.branch.Some? && dto.branch.value !in repo.branches { return Err(BranchNotFound); }
      var from, till := Parse(dto.dateFrom), Parse(dto.dateTo);
      if from.Some? && till.Some? && till.value < from.value { return Err(DateOrder); }
      var overrideByDay := OverrideByDay(dto.pattern.dayOverrides);
      var dateShifts := [];
      if from.Some? && till.Some? {
        dateShifts := DateShifts(dto.pattern, from.value, till.value, overrideByDay);
      }
      if dateShifts == [] {
        NoSpanNoRows(repo.tenant, dto.users, dto.branch);
        return Ok([]);
      }
      if fails == Some(|dto.users| + 1) { return Err(DatabaseFailed); }
      var rows := AllRows(repo.tenant, dto.users, dto.branch, dateShifts);
      repo.BulkCreate(rows);
      r := Ok(rows);
    }

    static method OverrideByDay(overrides: seq<Override>) returns (m: map<int, seq<Shift>>)
      ensures forall d :: (if d in m then Some(m[d]) else None) == LastOverride(overrides, d)
    {
      m := map[];
      for i := 0 to |overrides|
        invariant forall d :: (if d in m then Some(m[d]) else None) == LastOverride(overrides[..i], d)
      {
        assert overrides[..i + 1][..i] == overrides[..i];
        m := m[overrides[i].day := overrides[i].shifts];
      }
      assert overrides[..|overrides|] == overrides;
    }

    /** The loop over the dates and, inside it, over the shifts of each date. */
    static method DateShifts(p: Pattern, from: int, till: int, overrideByDay: map<int, seq<Shift>>) returns (dateShifts: seq<DatedShift>)
      requires from <= till
      requires forall d :: (if d in overrideByDay then Some(overrideByDay[d]) else None) == LastOverride(p.dayOverrides, d)
      ensures dateShifts == Span(p, from, till)
    {
      hide Span, LastOverride, WeekDay, Dated;
      NoDays(p, from);
      dateShifts := [];
      var d := from;
      while d <= till
        invariant from <= d <= till + 1
        invariant dateShifts == Span(p, from, d - 1)
      {
        var dayOfWeek := WeekDay(d);
        if p.daysOfWeek.None? || dayOfWeek in p.daysOfWeek.value {
          var shifts := if dayOfWeek in overrideByDay then overrideByDay[dayOfWeek] else p.shifts;
          assert shifts == DayShifts(p, d);
          NoneDated(d, shifts);
          for j := 0 to |shifts|
            invariant dateShifts == Span(p, from, d - 1) + Dated(d, shifts[..j])
          {
            OneMoreDated(d, shifts, j);
            dateShifts := dateShifts + [DatedShift(d, shifts[j])];
          }
          assert shifts[..|shifts|] == shifts;
        } else {
          NoneDated(d, []);
          assert DayShifts(p, d) == [][..0];
        }
        OneMoreDay(p, from, d);
        d := d + 1;
      }
    }
  }

  lemma NoDays(p: Pattern, from: int)
    ensures Span(p, from, from - 1) == []
  {
  }

  lemma OneMoreDay(p: Pattern, from: int, day: int)
    requires from <= day
    ensures Span(p, from, day) == Span(p, from, day - 1) + Dated(day, DayShifts(p, day))
  {
  }

  lemma NoneDated(day: int, shifts: seq<Shift>)
    ensures Dated(day, shifts[..0]) == []
  {
  }

  lemma OneMoreDated(day: int, shifts: seq<Shift>, j: nat)
    requires j < |shifts|
    ensures Dated(day, shifts[..j + 1]) == Dated(day, shifts[..j]) + [DatedShift(day, shifts[j])]
  {
  }

  /** `addDays` on the text of a day. */
  function AddDays(date: string, days: int): string
    requires Parse(date).Some? && 0 <= YearOf(Parse(date).value + days) <= 9999
  {
    Format(Parse(date).value + days)
  }

  class ShiftPatternsService {
    var patterns: map<string, Pattern>
    var fields: map<string, UserFields>
    const schedulesRepo: SchedulesRepository
    const schedulesService: SchedulesService

    constructor (repo: SchedulesRepository, service: SchedulesService)
      requires service.repo == repo
      ensures Valid() && schedulesRepo == repo && patterns == map[]
      ensures fields.Keys == set u | u in repo.staff
    {
      schedulesRepo, schedulesService := repo, service;
      patterns := map[];
      fields := map u | u in repo.staff :: UserFields(None, None, None);
    }

    predicate Valid() {
      schedulesService.repo == schedulesRepo
    }

    function State(): Office
      reads this, schedulesRepo
    {
      Office(patterns, fields, schedulesRepo.table)
    }

    method UpdateUsersSchedule(users: seq<string>, f: UserFields -> UserFields)
      modifies `fields
      ensures fields == Written(old(fields), users, f)
    {
      fields := Written(fields, users, f);
    }

    /** Delete first, then create: an error of the creation leaves the deletion behind. */
    method Regenerate(users: seq<string>, p: Pattern, scheduleStartDate: Option<string>, today: int, stop: Option<Statement>)
      returns (error: Option<ScheduleError>)
      requires Valid() && Clock(today) && FirstMissing(users, schedulesRepo.staff).None?
      modifies schedulesRepo
      ensures (schedulesRepo.table, error) ==
              Regeneration(old(schedulesRepo.table), schedulesRepo.tenant, users, p, FirstDay(scheduleStartDate, today), today, stop)
    {
      hide YearOf, Format, Parse, Less, Remaining, AllRows, BulkSpan, FirstMissing, BulkAnswer, CreationFails, Regeneration;
      ClockYears(today);
      ParseOfFormat(today); ParseOfFormat(today + ROLLING_WINDOW_DAYS);
      var now := Format(today);
      var from := if scheduleStartDate.Some? && scheduleStartDate.value != "" && Less(now, scheduleStartDate.value)
                  then scheduleStartDate.value else now;
      RegenerationInSteps(schedulesRepo.table, schedulesRepo.tenant, users, p, FirstDay(scheduleStartDate, today), today, stop);
      if stop == Some(Deletion) { return Some(DatabaseFailed); }
      schedulesRepo.DeleteFrom(users, today);
      var dto := BulkRequest(users, None, from, AddDays(now, ROLLING_WINDOW_DAYS), p);
      CreationAnswer(dto, schedulesRepo.tenant, schedulesRepo.staff, schedulesRepo.branches, stop);
      var made := schedulesService.BulkCreate(dto, CreationQuery(stop));
      error := if made.Err? then Some(made.error) else None;
      assert schedulesRepo.table ==
             Regeneration(old(schedulesRepo.table), schedulesRepo.tenant, users, p, FirstDay(scheduleStartDate, today), today, stop).0;
    }

    method Assign(users: seq<string>, patternId: Option<string>, custom: Option<Pattern>, start: string, today: int, stop: Option<Statement>)
      returns (r: Result<Reply>)
      requires Valid() && Clock(today)
      modifies this, schedulesRepo
      ensures (State(), r) ==
              Apply(old(State()), Op.Assign(users, patternId, custom, start), schedulesRepo.tenant, schedulesRepo.staff, today, stop)
    {
      hide Regeneration, FirstDay, Clock, FirstMissing;
      if patternId.Some? == custom.Some? { return Err(ExactlyOne); }
      var refused := CheckUsers(users, schedulesRepo.staff, if stop.Some? && stop.value.UserCheck? then Some(stop.value.n) else None);
      if refused.Some? { return Err(refused.value); }
      var resolved;
      if patternId.Some? {
        if stop == Some(PatternLookup) { return Err(DatabaseFailed); }
        if patternId.value !in patterns { return Err(PatternNotFound); }
        resolved := patterns[patternId.value];
      } else {
        resolved := custom.value;
      }
      if stop == Some(ColumnsWrite) { return Err(DatabaseFailed); }
      UpdateUsersSchedule(users, _ => UserFields(patternId, custom, Some(start)));
      var error := Regenerate(users, resolved, Some(start), today, stop);
      r := if error.Some? then Err(error.value) else Ok(AssignedCount(|users|));
    }

    /** The new id is the database's; one that is taken is refused. */
    method Create(id: string, dto: Pattern, today: int, stop: Option<Statement>) returns (r: Result<Reply>)
      requires Valid() && Clock(today)
      modifies `patterns
      ensures (State(), r) == Apply(old(State()), Op.Create(id, dto), schedulesRepo.tenant, schedulesRepo.staff, today, stop)
    {
      if stop == Some(PatternWrite) { return Err(DatabaseFailed); }
      if id in patterns { return Err(IdTaken); }
      patterns := patterns[id := dto];
      r := Ok(PatternRow(id, dto));
    }

    method FindAssignedUserIds(id: string) returns (users: seq<string>)
      ensures users == Assigned(fields, schedulesRepo.staff, id)
    {
      users := Assigned(fields, schedulesRepo.staff, id);
    }

    method Update(id: string, dto: PatternEdit, today: int, stop: Option<Statement>) returns (r: Result<Reply>)
      requires Valid() && Clock(today)
      modifies this, schedulesRepo
      ensures (State(), r) == Apply(old(State()), Edit(id, dto), schedulesRepo.tenant, schedulesRepo.staff, today, stop)
    {
      hide Regeneration, Clock, Assigned, FirstMissing;
      if stop == Some(PatternLookup) { return Err(DatabaseFailed); }
      if id !in patterns { return Err(PatternNotFound); }
      if stop == Some(PatternWrite) { return Err(DatabaseFailed); }
      var updated := Edited(patterns[id], dto);
      patterns := patterns[id := updated];
      if stop == Some(AssigneeQuery) { return Err(DatabaseFailed); }
      var users := FindAssignedUserIds(id);
      if |users| > 0 {
        AssignedAre(fields, schedulesRepo.staff, id);
        NobodyMissing(users, schedulesRepo.staff);
        FirstDayToday(today);
        var error := Regenerate(users, updated, None, today, stop);
        if error.Some? { return Err(error.value); }
      }
      r := Ok(PatternRow(id, updated));
    }

    /** Deleting the pattern row empties the columns that refer to it; the assignees' columns and rows follow in statements of their own. */
    method Remove(id: string, today: int, stop: Option<Statement>) returns (r: Result<Reply>)
      requires Valid() && Clock(today)
      modifies this, schedulesRepo
      ensures (State(), r) == Apply(old(State()), Op.Remove(id), schedulesRepo.tenant, schedulesRepo.staff, today, stop)
    {
      hide Clock, Assigned, Remaining;
      if stop == Some(PatternLookup) { return Err(DatabaseFailed); }
      if id !in patterns { return Err(PatternNotFound); }
      if stop == Some(AssigneeQuery) { return Err(DatabaseFailed); }
      var users := FindAssignedUserIds(id);
      if stop == Some(PatternWrite) { return Err(DatabaseFailed); }
      patterns, fields := patterns - {id}, Unlinked(fields, id);
      if |users| > 0 {
        if stop == Some(ColumnsWrite) { return Err(DatabaseFailed); }
        UpdateUsersSchedule(users, (f: UserFields) => f.(patternId := None, startDate := None));
        if stop == Some(Deletion) { return Err(DatabaseFailed); }
        schedulesRepo.DeleteFrom(users, today);
      }
      r := Ok(NoContent);
    }
  }

  function CreationQuery(stop: Option<Statement>): Option<nat> {
    if stop.Some? && stop.value.Creation? then Some(stop.value.n) else None
  }

  lemma RegenerationInSteps(table: seq<Row>, tenant: string, users: seq<string>, p: Pattern, first: Option<int>, today: int, stop: Option<Statement>)
    ensures var span := BulkSpan(p, first, Some(today + ROLLING_WINDOW_DAYS));
            var kept := Remaining(table, tenant, users, today);
            Regeneration(table, tenant, users, p, first, today, stop) ==
            if stop == Some(Deletion) then (table, Some(DatabaseFailed))
            else if CreationFails(users, span, stop) then (kept, Some(DatabaseFailed))
            else if span.Err? then (kept, Some(span.error))
            else (kept + AllRows(tenant, users, None, span.value), None)
  {
    hide Remaining, AllRows, Span;
    RegenerationError(table, tenant, users, p, first, today);
  }

  /** For users who are all there and no branch, only a failing query or the order of the dates refuses a creation. */
  lemma CreationAnswer(dto: BulkRequest, tenant: string, staff: seq<string>, branches: set<string>, stop: Option<Statement>)
    requires FirstMissing(dto.users, staff).None? && dto.branch.None?
    ensures var span := BulkSpan(dto.pattern, Parse(dto.dateFrom), Parse(dto.dateTo));
            && (span.Err? ==> span == Err(DateOrder))
            && BulkAnswer(dto, tenant, staff, branches, CreationQuery(stop)) ==
               if CreationFails(dto.users, span, stop) then Err(DatabaseFailed)
               else if span.Err? then Err(span.error) else Ok(AllRows(tenant, dto.users, None, span.value))
  {
    hide Parse, Span, AllRows, FirstMissing;
    PrefixMissing(dto.users, staff);
  }

  /** Users who are all there pass every prefix of the checks. */
  lemma PrefixMissing(users: seq<string>, staff: seq<string>)
    requires FirstMissing(users, staff).None?
    ensures forall n :: 0 <= n <= |users| ==> FirstMissing(users[..n], staff).None?
  {
    NobodyMissing(users, staff);
    forall n | 0 <= n <= |users| ensures FirstMissing(users[..n], staff).None? { NobodyMissing(users[..n], staff); }
  }

  lemma FirstDayToday(today: int)
    requires Clock(today)
    ensures FirstDay(None, today) == Some(today)
  {
    ClockYears(today);
    ParseOfFormat(today);
  }
}
