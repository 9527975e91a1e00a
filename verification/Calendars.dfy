/** Two implementations of GTFS service calendars: folding rows into a per-service structure
    (backend/src/lib.rs:515-611, 690-718, 884-966) and scanning the rows of one service
    (backend/src/trip_logic.rs:1142-1174). */
module Calendars {
  import opened Wrappers

  /** Days counted from 1 January of year 1, a Monday. */
  type Date = int

  datatype Weekday = Mon | Tue | Wed | Thu | Fri | Sat | Sun

  function WeekdayOf(d: Date): Weekday {
    match (d - 1) % 7
    case 0 => Mon
    case 1 => Tue
    case 2 => Wed
    case 3 => Thu
    case 4 => Fri
    case 5 => Sat
    case _ => Sun
  }

  function NextDay(day: Weekday): Weekday {
    match day
    case Mon => Tue
    case Tue => Wed
    case Wed => Thu
    case Thu => Fri
    case Fri => Sat
    case Sat => Sun
    case Sun => Mon
  }

  /** Weekdays follow one another, and 1 January 2024, day 738886, is a Monday. */
  lemma WeekdaysFollow(d: Date)
    ensures WeekdayOf(d + 1) == NextDay(WeekdayOf(d))
    ensures WeekdayOf(738886) == Mon
  {
    var r := (d - 1) % 7;
    assert (d + 1 - 1) % 7 == if r == 6 then 0 else r + 1;
  }

  datatype Calendar = Calendar(chateau: string, serviceId: string, monday: bool, tuesday: bool, wednesday: bool,
                               thursday: bool, friday: bool, saturday: bool, sunday: bool,
                               startDate: Date, endDate: Date)

  datatype CalendarDate = CalendarDate(chateau: string, serviceId: string, date: Date, exceptionType: int)

  datatype Exception = Added | Deleted

  datatype General = General(days: seq<Weekday>, startDate: Date, endDate: Date)

  datatype Unified = Unified(id: string, general: Option<General>, exceptions: Option<map<Date, Exception>>)

  type Services = map<string, Unified>

  function If<T>(b: bool, x: T): seq<T> {
    if b then [x] else []
  }

  function Marked(list: seq<(bool, Weekday)>): seq<Weekday> {
    if list == [] then [] else If(list[0].0, list[0].1) + Marked(list[1..])
  }

  function DayList(c: Calendar): seq<(bool, Weekday)> {
    [(c.monday, Mon), (c.tuesday, Tue), (c.wednesday, Wed), (c.thursday, Thu), (c.friday, Fri), (c.saturday, Sat),
     (c.sunday, Sun)]
  }

  function MakeWeekdays(c: Calendar): seq<Weekday> {
    Marked(DayList(c))
  }

  function RunsOn(c: Calendar, day: Weekday): bool {
    match day
    case Mon => c.monday
    case Tue => c.tuesday
    case Wed => c.wednesday
    case Thu => c.thursday
    case Fri => c.friday
    case Sat => c.saturday
    case Sun => c.sunday
  }

  // ---- Folding rows ----

  function Filed(c: Calendar): Unified {
    Unified(c.serviceId, Some(General(MakeWeekdays(c), c.startDate, c.endDate)), None)
  }

  function AddCalendars(services: Services, rows: seq<Calendar>): Services {
    if rows == [] then services
    else
      var n := |rows| - 1;
      AddCalendars(services, rows[..n])[rows[n].serviceId := Filed(rows[n])]
  }

  /** Only the exception types 1 and 2 exist; anything else panics. */
  predicate Known(row: CalendarDate) {
    row.exceptionType == 1 || row.exceptionType == 2
  }

  function ExceptionOf(row: CalendarDate): Exception {
    if row.exceptionType == 1 then Added else Deleted
  }

  function AddDate(services: Services, row: CalendarDate): Services {
    var id := row.serviceId;
    if id !in services then services[id := Unified(id, None, Some(map[row.date := ExceptionOf(row)]))]
    else
      var present := if services[id].exceptions.Some? then services[id].exceptions.value else map[];
      services[id := services[id].(exceptions := Some(present[row.date := ExceptionOf(row)]))]
  }

  function AddDates(services: Services, rows: seq<CalendarDate>): Services {
    if rows == [] then services
    else
      var n := |rows| - 1;
      AddDate(AddDates(services, rows[..n]), rows[n])
  }

  predicate AllKnown(rows: seq<CalendarDate>) {
    forall i :: 0 <= i < |rows| ==> Known(rows[i])
  }

  /** The services of one chateau. */
  function Single(calendars: seq<Calendar>, dates: seq<CalendarDate>): Services {
    AddDates(AddCalendars(map[], calendars), dates)
  }

  method InsertDates(services: Services, rows: seq<CalendarDate>) returns (result: Result<Services, string>)
    ensures result == if AllKnown(rows) then Success(AddDates(services, rows)) else Failure("WHAT IS THIS!!!!!!")
  {
    var current := services;
    for i := 0 to |rows|
      invariant AllKnown(rows[..i])
      invariant current == AddDates(services, rows[..i])
    {
      var row := rows[i];
      assert rows[..i + 1][..i] == rows[..i];
      if row.exceptionType != 1 && row.exceptionType != 2 {
        return Failure("WHAT IS THIS!!!!!!");
      }
      var exceptionNumber := if row.exceptionType == 1 then Added else Deleted;
      if row.serviceId in current {
        var entry := current[row.serviceId];
        var exceptions := if entry.exceptions.Some? then entry.exceptions.value[row.date := exceptionNumber]
                          else map[row.date := exceptionNumber];
        current := current[row.serviceId := entry.(exceptions := Some(exceptions))];
      } else {
        current := current[row.serviceId := Unified(row.serviceId, None, Some(map[row.date := exceptionNumber]))];
      }
    }
    assert rows[..|rows|] == rows;
    return Success(current);
  }

  method InsertCalendars(rows: seq<Calendar>) returns (services: Services)
    ensures services == AddCalendars(map[], rows)
  {
    services := map[];
    for i := 0 to |rows|
      invariant services == AddCalendars(map[], rows[..i])
    {
      assert rows[..i + 1][..i] == rows[..i];
      var general := General(MakeWeekdays(rows[i]), rows[i].startDate, rows[i].endDate);
      services := services[rows[i].serviceId := Unified(rows[i].serviceId, Some(general), None)];
    }
    assert rows[..|rows|] == rows;
  }

  method MakeCalendarStructure(calendars: seq<Calendar>, dates: seq<CalendarDate>)
    returns (result: Result<Services, string>)
    ensures result == if AllKnown(dates) then Success(Single(calendars, dates)) else Failure("WHAT IS THIS!!!!!!")
  {
    var services := InsertCalendars(calendars);
    result := InsertDates(services, dates);
  }

  function DatetimeInService(service: Unified, d: Date): bool {
    var base := service.general.Some? && WeekdayOf(d) in service.general.value.days
                && service.general.value.startDate <= d && service.general.value.endDate >= d;
    if service.exceptions.Some? && d in service.exceptions.value then service.exceptions.value[d].Added? else base
  }

  // ---- Scanning rows ----

  /** Every row whose range holds the date overwrites the answer. */
  function ScanCalendars(rows: seq<Calendar>, d: Date): bool {
    if rows == [] then false
    else
      var n := |rows| - 1;
      if rows[n].startDate <= d <= rows[n].endDate then RunsOn(rows[n], WeekdayOf(d)) else ScanCalendars(rows[..n], d)
  }

  function FirstOn(rows: seq<CalendarDate>, d: Date): Option<CalendarDate> {
    if rows == [] then None
    else if rows[0].date == d then Some(rows[0])
    else FirstOn(rows[1..], d)
  }

  function Scan(calendars: seq<Calendar>, dates: seq<CalendarDate>, d: Date): bool {
    match FirstOn(dates, d)
    case None => ScanCalendars(calendars, d)
    case Some(row) =>
      if row.exceptionType == 1 then true else if row.exceptionType == 2 then false else ScanCalendars(calendars, d)
  }

  method ServiceActive(calendars: seq<Calendar>, dates: seq<CalendarDate>, d: Date) returns (active: bool)
    ensures active == Scan(calendars, dates, d)
  {
    var dayOfWeek := WeekdayOf(d);
    active := false;
    for i := 0 to |calendars|
      invariant active == ScanCalendars(calendars[..i], d)
    {
      assert calendars[..i + 1][..i] == calendars[..i];
      if calendars[i].startDate <= d && d <= calendars[i].endDate {
        active := RunsOn(calendars[i], dayOfWeek);
      }
    }
    assert calendars[..|calendars|] == calendars;
    var k := 0;
    while k < |dates| && dates[k].date != d
      invariant 0 <= k <= |dates|
      invariant FirstOn(dates, d) == FirstOn(dates[k..], d)
    {
      assert dates[k..][1..] == dates[k + 1..];
      k := k + 1;
    }
    if k < |dates| {
      assert dates[k..][0] == dates[k];
      active := if dates[k].exceptionType == 1 then true else if dates[k].exceptionType == 2 then false else active;
    } else {
      assert dates[k..] == [];
    }
  }

  ghost predicate LastCovering(rows: seq<Calendar>, d: Date, i: nat) {
    && i < |rows| && rows[i].startDate <= d <= rows[i].endDate
    && forall j :: i < j < |rows| ==> !(rows[j].startDate <= d <= rows[j].endDate)
  }

  lemma {:induction false} ScanCalendarsIs(rows: seq<Calendar>, d: Date)
    ensures ScanCalendars(rows, d) <==> exists i: nat :: LastCovering(rows, d, i) && RunsOn(rows[i], WeekdayOf(d))
  {
    hide RunsOn, WeekdayOf;
    if rows != [] {
      var n := |rows| - 1;
      if rows[n].startDate <= d <= rows[n].endDate {
        assert LastCovering(rows, d, n);
      } else {
        ScanCalendarsIs(rows[..n], d);
        forall i: nat ensures LastCovering(rows[..n], d, i) <==> LastCovering(rows, d, i) {
        }
      }
    }
  }

  lemma {:induction false} FirstOnIs(rows: seq<CalendarDate>, d: Date, k: nat)
    requires k <= |rows| && (forall j :: 0 <= j < k ==> rows[j].date != d) && (k < |rows| ==> rows[k].date == d)
    ensures FirstOn(rows, d) == if k < |rows| then Some(rows[k]) else None
  {
    if k > 0 { FirstOnIs(rows[1..], d, k - 1); }
  }

  /** The scan: type 1 or 2 of the first exception row on the date, the k-th, decides; if there is none or
      it has neither type, the last calendar row whose range holds the date does. */
  lemma ScanAnswer(calendars: seq<Calendar>, dates: seq<CalendarDate>, d: Date, k: nat)
    requires k <= |dates| && (forall j :: 0 <= j < k ==> dates[j].date != d) && (k < |dates| ==> dates[k].date == d)
    ensures Scan(calendars, dates, d) <==>
              if k < |dates| && dates[k].exceptionType in {1, 2} then dates[k].exceptionType == 1
              else exists i: nat :: LastCovering(calendars, d, i) && RunsOn(calendars[i], WeekdayOf(d))
  {
    hide RunsOn, WeekdayOf, LastCovering;
    FirstOnIs(dates, d, k);
    ScanCalendarsIs(calendars, d);
  }

  // ---- The two agree ----

  function CalendarsOf(rows: seq<Calendar>, id: string): seq<Calendar> {
    if rows == [] then []
    else
      var n := |rows| - 1;
      CalendarsOf(rows[..n], id) + If(rows[n].serviceId == id, rows[n])
  }

  function DatesOf(rows: seq<CalendarDate>, id: string): seq<CalendarDate> {
    if rows == [] then []
    else
      var n := |rows| - 1;
      DatesOf(rows[..n], id) + If(rows[n].serviceId == id, rows[n])
  }

  lemma {:induction false} MarkedHolds(list: seq<(bool, Weekday)>, day: Weekday)
    ensures day in Marked(list) <==> exists i :: 0 <= i < |list| && list[i] == (true, day)
  {
    if list != [] {
      MarkedHolds(list[1..], day);
      forall i | 0 <= i < |list| ensures list[i] == (true, day) ==> i == 0 || list[1..][i - 1] == (true, day) {
      }
    }
  }

  lemma WeekdaysHold(c: Calendar, day: Weekday)
    ensures day in MakeWeekdays(c) <==> RunsOn(c, day)
  {
    hide Marked;
    MarkedHolds(DayList(c), day);
    var list := DayList(c);
    match day {
      case Mon => assert list[0] == (c.monday, day);
      case Tue => assert list[1] == (c.tuesday, day);
      case Wed => assert list[2] == (c.wednesday, day);
      case Thu => assert list[3] == (c.thursday, day);
      case Fri => assert list[4] == (c.friday, day);
      case Sat => assert list[5] == (c.saturday, day);
      case Sun => assert list[6] == (c.sunday, day);
    }
  }

  /** Column by column, in the list of the structure and in the scan. */
  lemma ColumnsHold(c: Calendar)
    ensures var days := MakeWeekdays(c);
            && (Mon in days <==> c.monday) && (Tue in days <==> c.tuesday) && (Wed in days <==> c.wednesday)
            && (Thu in days <==> c.thursday) && (Fri in days <==> c.friday) && (Sat in days <==> c.saturday)
            && (Sun in days <==> c.sunday)
    ensures forall day :: RunsOn(c, day) <==> day in MakeWeekdays(c)
  {
    hide MakeWeekdays;
    forall day ensures RunsOn(c, day) <==> day in MakeWeekdays(c) {
      WeekdaysHold(c, day);
    }
  }

  predicate Covers(c: Calendar, d: Date) {
    c.startDate <= d <= c.endDate
  }

  /** The structure knows the last calendar row of a service only. */
  lemma LastRowDecides(rows: seq<Calendar>, id: string, services: Services, d: Date)
    requires id in services <==> rows != []
    requires rows != [] ==> services[id] == Filed(rows[|rows| - 1])
    ensures id in services && DatetimeInService(services[id], d) <==>
              rows != [] && Covers(rows[|rows| - 1], d) && RunsOn(rows[|rows| - 1], WeekdayOf(d))
  {
    hide MakeWeekdays, WeekdayOf, RunsOn;
    if rows != [] { WeekdaysHold(rows[|rows| - 1], WeekdayOf(d)); }
  }

  /** In the fold the last row of a service decides. */
  lemma {:induction false} FoldedCalendar(rows: seq<Calendar>, id: string)
    ensures id in AddCalendars(map[], rows) <==> CalendarsOf(rows, id) != []
    ensures CalendarsOf(rows, id) != [] ==>
              AddCalendars(map[], rows)[id] == Filed(CalendarsOf(rows, id)[|CalendarsOf(rows, id)| - 1])
    ensures forall i :: 0 <= i < |CalendarsOf(rows, id)| ==> CalendarsOf(rows, id)[i].serviceId == id
  {
    hide MakeWeekdays;
    if rows != [] {
      FoldedCalendar(rows[..|rows| - 1], id);
    }
  }

  /** In the fold the last row for a date decides, in the scan the first one. */
  function LastOn(rows: seq<CalendarDate>, d: Date): Option<CalendarDate> {
    if rows == [] then None
    else
      var n := |rows| - 1;
      if rows[n].date == d then Some(rows[n]) else LastOn(rows[..n], d)
  }

  /** What a service says about one date: its general calendar and its exception, if any. */
  ghost predicate Says(services: Services, id: string, d: Date, general: Option<General>, row: Option<CalendarDate>)
    requires id in services
  {
    && services[id].general == general
    && (services[id].exceptions.Some? && d in services[id].exceptions.value <==> row.Some?)
    && (row.Some? ==> services[id].exceptions.value[d] == ExceptionOf(row.value))
  }

  lemma AddDateSays(services: Services, row: CalendarDate, id: string, d: Date, general: Option<General>,
                    last: Option<CalendarDate>)
    requires id in services ==> Says(services, id, d, general, last)
    requires id !in services ==> general == None && last == None
    ensures id in AddDate(services, row) <==> id in services || row.serviceId == id
    ensures id in AddDate(services, row) ==>
              Says(AddDate(services, row), id, d, general,
                   if row.serviceId == id && row.date == d then Some(row) else last)
  {
  }

  lemma LastOnSnoc(front: seq<CalendarDate>, row: CalendarDate, d: Date)
    ensures LastOn(front + [row], d) == if row.date == d then Some(row) else LastOn(front, d)
    ensures front + If(false, row) == front
  {
    assert (front + [row])[..|front|] == front;
  }

  lemma {:induction false} FoldedDates(services: Services, rows: seq<CalendarDate>, id: string, d: Date)
    requires forall s :: s in services ==> services[s].exceptions == None
    ensures id in AddDates(services, rows) <==> id in services || DatesOf(rows, id) != []
    ensures id in AddDates(services, rows) ==>
              Says(AddDates(services, rows), id, d, if id in services then services[id].general else None,
                   LastOn(DatesOf(rows, id), d))
    ensures id !in AddDates(services, rows) ==> LastOn(DatesOf(rows, id), d) == None
  {
    hide AddDate, LastOn;
    NoLast(d);
    if rows == [] {
    } else {
      var n := |rows| - 1;
      FoldedDates(services, rows[..n], id, d);
      AddDateSays(AddDates(services, rows[..n]), rows[n], id, d, if id in services then services[id].general else None,
                  LastOn(DatesOf(rows[..n], id), d));
      LastOnSnoc(DatesOf(rows[..n], id), rows[n], d);
    }
  }

  lemma NoLast(d: Date)
    ensures LastOn([], d) == None
  {
  }

  ghost predicate UniqueDates(rows: seq<CalendarDate>) {
    forall i, j :: 0 <= i < j < |rows| ==> rows[i].date != rows[j].date
  }

  lemma {:induction false} FirstMember(rows: seq<CalendarDate>, d: Date)
    ensures FirstOn(rows, d).Some? ==>
              exists i :: 0 <= i < |rows| && rows[i] == FirstOn(rows, d).value && rows[i].date == d
    ensures FirstOn(rows, d).None? ==> forall i :: 0 <= i < |rows| ==> rows[i].date != d
  {
    if rows != [] && rows[0].date != d {
      FirstMember(rows[1..], d);
      if FirstOn(rows, d).Some? {
        var i :| 0 <= i < |rows[1..]| && rows[1..][i] == FirstOn(rows, d).value;
        assert rows[i + 1] == FirstOn(rows, d).value;
      } else {
        forall i | 0 <= i < |rows| ensures rows[i].date != d { if i > 0 { assert rows[1..][i - 1].date != d; } }
      }
    }
  }

  lemma {:induction false} LastMember(rows: seq<CalendarDate>, d: Date)
    ensures LastOn(rows, d).Some? ==>
              exists i :: 0 <= i < |rows| && rows[i] == LastOn(rows, d).value && rows[i].date == d
    ensures LastOn(rows, d).None? ==> forall i :: 0 <= i < |rows| ==> rows[i].date != d
  {
    if rows != [] && rows[|rows| - 1].date != d { LastMember(rows[..|rows| - 1], d); }
  }

  lemma FirstIsLast(rows: seq<CalendarDate>, d: Date)
    requires UniqueDates(rows)
    ensures FirstOn(rows, d) == LastOn(rows, d)
  {
    FirstMember(rows, d);
    LastMember(rows, d);
  }

  lemma {:induction false} DatesKnown(rows: seq<CalendarDate>, id: string)
    requires AllKnown(rows)
    ensures AllKnown(DatesOf(rows, id))
  {
    if rows != [] { DatesKnown(rows[..|rows| - 1], id); }
  }

  /** The answer of the folded structure. */
  function Folded(calendars: seq<Calendar>, dates: seq<CalendarDate>, id: string, d: Date): bool {
    id in Single(calendars, dates) && DatetimeInService(Single(calendars, dates)[id], d)
  }

  lemma FoldedAnswer(calendars: seq<Calendar>, dates: seq<CalendarDate>, id: string, d: Date)
    requires AllKnown(dates)
    ensures var rows, last := CalendarsOf(calendars, id), LastOn(DatesOf(dates, id), d);
            Folded(calendars, dates, id, d) <==>
              if last.Some? then last.value.exceptionType == 1
              else
                && rows != [] && rows[|rows| - 1].startDate <= d <= rows[|rows| - 1].endDate
                && RunsOn(rows[|rows| - 1], WeekdayOf(d))
  {
    hide MakeWeekdays, WeekdayOf, RunsOn, AddDates, AddCalendars, CalendarsOf, DatesOf, LastOn;
    var base := AddCalendars(map[], calendars);
    FoldedCalendar(calendars, id);
    forall s | s in base ensures base[s].exceptions == None { FoldedCalendar(calendars, s); }
    FoldedDates(base, dates, id, d);
    LastRowDecides(CalendarsOf(calendars, id), id, base, d);
  }

  /** Where the two agree: with an exception row on the date, exactly if the first and the last of them
      say the same; otherwise exactly if there are no calendar rows, or the last of them covers the
      date, or no earlier one says yes. */
  ghost predicate AgreeOn(calendars: seq<Calendar>, dates: seq<CalendarDate>, d: Date) {
    match (FirstOn(dates, d), LastOn(dates, d))
    case (Some(first), Some(last)) => first.exceptionType == last.exceptionType
    case _ => calendars == [] || Covers(calendars[|calendars| - 1], d) || !ScanCalendars(calendars, d)
  }

  /** The fold and the scan give the same answer for a service and a date exactly in these cases. */
  lemma AgreeIff(calendars: seq<Calendar>, dates: seq<CalendarDate>, id: string, d: Date)
    requires AllKnown(dates)
    ensures (Scan(CalendarsOf(calendars, id), DatesOf(dates, id), d) <==> Folded(calendars, dates, id, d)) <==>
              AgreeOn(CalendarsOf(calendars, id), DatesOf(dates, id), d)
  {
    hide WeekdayOf, RunsOn, CalendarsOf, DatesOf, FirstOn, LastOn, Folded;
    var ds := DatesOf(dates, id);
    FoldedAnswer(calendars, dates, id, d);
    FirstMember(ds, d);
    LastMember(ds, d);
    DatesKnown(dates, id);
  }

  /** For rows that are unique per service and per service and date, the fold and the scan give the
      same answer for every service and every date. */
  lemma ImplementationsAgree(calendars: seq<Calendar>, dates: seq<CalendarDate>, id: string, d: Date)
    requires AllKnown(dates)
    requires |CalendarsOf(calendars, id)| <= 1 && UniqueDates(DatesOf(dates, id))
    ensures Scan(CalendarsOf(calendars, id), DatesOf(dates, id), d) <==> Folded(calendars, dates, id, d)
  {
    hide CalendarsOf, DatesOf, FirstOn, LastOn, Folded, Scan;
    AgreeIff(calendars, dates, id, d);
    FirstIsLast(DatesOf(dates, id), d);
    FirstMember(DatesOf(dates, id), d);
    LastMember(DatesOf(dates, id), d);
    OneRow(CalendarsOf(calendars, id), d);
  }

  lemma OneRow(rows: seq<Calendar>, d: Date)
    requires |rows| <= 1
    ensures rows == [] || Covers(rows[|rows| - 1], d) || !ScanCalendars(rows, d)
  {
    if rows != [] { assert rows[..0] == []; }
  }

  /** A service with two calendar rows, days 1 to 10 and 20 to 30: on day 5 the scan says yes and the
      structure, which has kept the second row, no. */
  lemma TwoRangesDisagree()
    ensures var first := Calendar("c", "s", true, true, true, true, true, true, true, 1, 10);
            var rows := [first, first.(startDate := 20, endDate := 30)];
            Scan(CalendarsOf(rows, "s"), DatesOf([], "s"), 5) && !Folded(rows, [], "s", 5)
  {
    var first := Calendar("c", "s", true, true, true, true, true, true, true, 1, 10);
    var rows := [first, first.(startDate := 20, endDate := 30)];
    assert rows[..1] == [first] && [first][..0] == [];
    assert CalendarsOf([first], "s") == [first];
    assert CalendarsOf(rows, "s") == rows;
    FoldedAnswer(rows, [], "s", 5);
  }

  // ---- All chateaux at once ----

  /** Every nonempty calendar group starts its chateau afresh. */
  function CalendarGroups(groups: seq<seq<Calendar>>): map<string, Services> {
    if groups == [] then map[]
    else
      var n := |groups| - 1;
      var rest := CalendarGroups(groups[..n]);
      if groups[n] == [] then rest else rest[groups[n][0].chateau := AddCalendars(map[], groups[n])]
  }

  function DateGroups(all: map<string, Services>, groups: seq<seq<CalendarDate>>): map<string, Services> {
    if groups == [] then all
    else
      var n := |groups| - 1;
      var rest := DateGroups(all, groups[..n]);
      if groups[n] == [] then rest
      else
        var c := groups[n][0].chateau;
        rest[c := AddDates(if c in rest then rest[c] else map[], groups[n])]
  }

  method MakeCalendarStructures(calendars: seq<seq<Calendar>>, dates: seq<seq<CalendarDate>>)
    returns (result: Result<map<string, Services>, string>)
    ensures result == if forall i :: 0 <= i < |dates| ==> AllKnown(dates[i])
                      then Success(DateGroups(CalendarGroups(calendars), dates)) else Failure("WHAT IS THIS!!!!!!")
  {
    hide AddDates, AddCalendars, AllKnown;
    var structures: map<string, Services> := map[];
    for i := 0 to |calendars|
      invariant structures == CalendarGroups(calendars[..i])
    {
      assert calendars[..i + 1][..i] == calendars[..i];
      if calendars[i] == [] {
        continue;
      }
      var table := InsertCalendars(calendars[i]);
      structures := structures[calendars[i][0].chateau := table];
    }
    assert calendars[..|calendars|] == calendars;
    for i := 0 to |dates|
      invariant forall k :: 0 <= k < i ==> AllKnown(dates[k])
      invariant structures == DateGroups(CalendarGroups(calendars), dates[..i])
    {
      assert dates[..i + 1][..i] == dates[..i];
      if dates[i] != [] {
        var chateau := dates[i][0].chateau;
        var pile := if chateau in structures then structures[chateau] else map[];
        var added := InsertDates(pile, dates[i]);
        if added.Failure? {
          return Failure(added.error);
        }
        structures := structures[chateau := added.value];
      } else {
        NoneKnown(dates[i]);
      }
    }
    assert dates[..|dates|] == dates;
    return Success(structures);
  }

  lemma NoneKnown(rows: seq<CalendarDate>)
    requires rows == []
    ensures AllKnown(rows)
  {
  }

  function GroupFor(groups: seq<seq<Calendar>>, chateau: string): seq<Calendar> {
    if groups == [] then []
    else
      var n := |groups| - 1;
      if groups[n] != [] && groups[n][0].chateau == chateau then groups[n] else GroupFor(groups[..n], chateau)
  }

  function DatesFor(groups: seq<seq<CalendarDate>>, chateau: string): seq<CalendarDate> {
    if groups == [] then []
    else
      var n := |groups| - 1;
      if groups[n] != [] && groups[n][0].chateau == chateau then groups[n] else DatesFor(groups[..n], chateau)
  }

  ghost predicate OneGroupEach(groups: seq<seq<CalendarDate>>) {
    forall i, j :: 0 <= i < j < |groups| && groups[i] != [] && groups[j] != [] ==>
      groups[i][0].chateau != groups[j][0].chateau
  }

  lemma {:induction false} CalendarGroupsAt(groups: seq<seq<Calendar>>, chateau: string)
    ensures chateau in CalendarGroups(groups) <==> GroupFor(groups, chateau) != []
    ensures chateau in CalendarGroups(groups) ==>
              CalendarGroups(groups)[chateau] == AddCalendars(map[], GroupFor(groups, chateau))
  {
    if groups != [] { CalendarGroupsAt(groups[..|groups| - 1], chateau); }
  }

  lemma {:induction false} NoDatesYet(groups: seq<seq<CalendarDate>>, chateau: string)
    requires forall i :: 0 <= i < |groups| && groups[i] != [] ==> groups[i][0].chateau != chateau
    ensures DatesFor(groups, chateau) == []
  {
    if groups != [] { NoDatesYet(groups[..|groups| - 1], chateau); }
  }

  lemma {:induction false} DateGroupsAt(all: map<string, Services>, groups: seq<seq<CalendarDate>>, chateau: string)
    requires OneGroupEach(groups)
    ensures chateau in DateGroups(all, groups) <==> chateau in all || DatesFor(groups, chateau) != []
    ensures chateau in DateGroups(all, groups) ==>
              DateGroups(all, groups)[chateau] ==
                AddDates(if chateau in all then all[chateau] else map[], DatesFor(groups, chateau))
  {
    hide AddDate;
    if groups != [] {
      var n := |groups| - 1;
      DateGroupsAt(all, groups[..n], chateau);
      if groups[n] != [] && groups[n][0].chateau == chateau {
        NoDatesYet(groups[..n], chateau);
      }
    }
  }

  /** The builder for many chateaux gives each one what the single builder gives for its group. */
  lemma ManyIsSingleEach(calendars: seq<seq<Calendar>>, dates: seq<seq<CalendarDate>>, chateau: string)
    requires OneGroupEach(dates)
    ensures chateau in DateGroups(CalendarGroups(calendars), dates) <==>
              GroupFor(calendars, chateau) != [] || DatesFor(dates, chateau) != []
    ensures chateau in DateGroups(CalendarGroups(calendars), dates) ==>
              DateGroups(CalendarGroups(calendars), dates)[chateau] ==
                Single(GroupFor(calendars, chateau), DatesFor(dates, chateau))
  {
    hide AddDates;
    CalendarGroupsAt(calendars, chateau);
    DateGroupsAt(CalendarGroups(calendars), dates, chateau);
  }
}
