/** The mobile roster: one selected day at a time, a day picker that moves
    through the days of the month, and one badge per employee for that day. */
module MobileRosterList {
  import opened Options
  import opened Calendar
  import opened ScheduleUtils
  import opened CellResolver
  import opened RosterTable

  /** The date `new Date()` reads when the list is shown; `month` is zero-based. */
  datatype Today = Today(year: int, month: int, day: int)

  /** A real date of the calendar. */
  predicate ValidToday(today: Today) {
    0 <= today.month <= 11 && 1 <= today.day <= DaysInMonth(today.month, today.year)
  }

  /** The day selected on entering a month: today's day of the month when the
      month shown is the current one, the first day otherwise. It is always a
      day of the month shown. */
  function InitialDay(today: Today, month: int, year: int): (day: int)
    ensures today.month == month && today.year == year ==> day == today.day
    ensures today.month != month || today.year != year ==> day == 1
    ensures ValidToday(today) && 0 <= month <= 11 ==> 1 <= day <= DaysInMonth(month, year)
  {
    if today.month == month && today.year == year then today.day else 1
  }

  /** The `selectedDay` state of the list, with the month shown and the
      length of the day strip (`daysArray.length`). */
  class DayPicker {
    var selectedDay: int
    var dayCount: nat
    var month: int
    var year: int

    /** The selected day is a day of the strip. */
    predicate InRange()
      reads this
    {
      1 <= selectedDay <= dayCount
    }

    /** The strip holds the days of the month shown. */
    predicate StripIsMonth()
      reads this
    {
      0 <= month <= 11 && dayCount == DaysInMonth(month, year)
    }

    constructor (month: int, year: int, dayCount: nat, today: Today)
      ensures this.month == month && this.year == year && this.dayCount == dayCount
      ensures selectedDay == InitialDay(today, month, year)
      ensures ValidToday(today) && StripIsMonth() ==> InRange()
    {
      this.month := month;
      this.year := year;
      this.dayCount := dayCount;
      selectedDay := InitialDay(today, month, year);
    }

    /** `handlePrevDay`: one day back, never below the first. */
    method PrevDay()
      modifies this`selectedDay
      ensures selectedDay == if old(selectedDay) > 1 then old(selectedDay) - 1 else old(selectedDay)
      ensures old(InRange()) ==> InRange()
      ensures old(selectedDay) >= 1 ==> selectedDay >= 1
    {
      if selectedDay > 1 {
        selectedDay := selectedDay - 1;
      }
    }

    /** `handleNextDay`: one day on, never past the end of the strip. */
    method NextDay()
      modifies this`selectedDay
      ensures selectedDay == if old(selectedDay) < dayCount then old(selectedDay) + 1 else old(selectedDay)
      ensures old(InRange()) ==> InRange()
      ensures old(selectedDay) <= dayCount ==> selectedDay <= dayCount
    {
      if selectedDay < dayCount {
        selectedDay := selectedDay + 1;
      }
    }

    /** A day button of the strip was pressed. */
    method SelectDay(day: int)
      requires 1 <= day <= dayCount
      modifies this`selectedDay
      ensures selectedDay == day && InRange()
    {
      selectedDay := day;
    }

    /** The month or year shown changed: the strip is replaced and the
      selection resets as on entry. */
    method ChangeMonth(newMonth: int, newYear: int, newDayCount: nat, today: Today)
      modifies this
      ensures month == newMonth && year == newYear && dayCount == newDayCount
      ensures selectedDay == InitialDay(today, newMonth, newYear)
      ensures ValidToday(today) && StripIsMonth() ==> InRange()
    {
      month, year, dayCount := newMonth, newYear, newDayCount;
      selectedDay := InitialDay(today, newMonth, newYear);
    }

    /** The date key whose records the list shows. */
    function SelectedKey(): (key: string)
      reads this
      requires InRange() && StripIsMonth() && 1000 <= year <= 9999
      ensures DateStringWeekday(key) == Some(Weekday(year, month, selectedDay))
    {
      DaysInCalendarMonth(month, year);
      DateKeyWeekday(year, month, selectedDay);
      DateKey(year, month, selectedDay)
    }
  }

  /** The status badge of one employee on the selected day. The badge always
      has a style; the label line is shown only when there is a record. */
  datatype Badge = Badge(code: string, caption: Option<string>, background: Background,
                         textColor: string, clickable: bool)

  function BadgeFor(emp: Employee, dateKey: string, records: Records, canEdit: bool,
                    currentNip: Option<string>, shifts: seq<MasterRecord>,
                    units: seq<MasterRecord>): (b: Badge)
    ensures b.caption.Some? <==> (emp.employeeId, dateKey) in records
    ensures b.code != "" && b.background != NoBackground
    ensures b.textColor == ContrastYIQ(Foreground(b.background))
    ensures !canEdit && b.clickable ==> b.caption.Some? && currentNip == Some(emp.employeeId)
    ensures b.clickable <==> canEdit || (currentNip == Some(emp.employeeId) && b.caption.Some?)
    ensures var res := Resolve(Mobile, RecordFor(records, emp.employeeId, dateKey), shifts, units);
      && b.code == res.code && b.background == res.background && b.textColor == res.textColor
      && (b.caption.Some? ==> b.caption == res.caption)
  {
    var record := RecordFor(records, emp.employeeId, dateKey);
    var cell := Resolve(Mobile, record, shifts, units);
    Badge(cell.code, if record.Some? then cell.caption else None, cell.background, cell.textColor,
          IsClickable(canEdit, currentNip, emp.employeeId, record.Some?))
  }

  /** The list for the selected day: one badge per employee, in order. */
  function DayList(employees: seq<Employee>, dateKey: string, records: Records, canEdit: bool,
                   currentNip: Option<string>, shifts: seq<MasterRecord>,
                   units: seq<MasterRecord>): (l: seq<Badge>)
    ensures |l| == |employees|
    ensures forall i :: 0 <= i < |l| ==>
      l[i] == BadgeFor(employees[i], dateKey, records, canEdit, currentNip, shifts, units)
  {
    seq(|employees|, i requires 0 <= i < |employees| =>
      BadgeFor(employees[i], dateKey, records, canEdit, currentNip, shifts, units))
  }

  /** An employee without a record that day still gets a white badge with
      dark text and "-", and no label line (master codes assumed non-blank). */
  lemma EmptyDayBadge(emp: Employee, dateKey: string, records: Records, canEdit: bool,
                      currentNip: Option<string>, shifts: seq<MasterRecord>, units: seq<MasterRecord>)
    requires (emp.employeeId, dateKey) !in records
    requires forall i :: 0 <= i < |shifts| ==> NormalizeCode(shifts[i].code) != ""
    requires forall i :: 0 <= i < |units| ==> NormalizeCode(units[i].code) != ""
    ensures BadgeFor(emp, dateKey, records, canEdit, currentNip, shifts, units)
            == Badge("-", None, Solid("#ffffff"), DARK_TEXT, canEdit)
  {
    AbsentRecordBadge(shifts, units);
  }
}
