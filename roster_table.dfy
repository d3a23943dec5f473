/** The desktop roster table: a header cell per day of the month and, per
    employee and day, a cell showing the resolved schedule code. */
module RosterTable {
  import opened Options
  import opened Calendar
  import opened ScheduleUtils
  import opened CellResolver

  /** An employee row; `employeeId` is the NIP records are keyed by. */
  datatype Employee = Employee(id: string, name: string, employeeId: string)

  /** The schedule records, keyed by employee NIP and date key; a missing key
      is a day without a record. */
  type Records = map<(string, string), ScheduleRecord>

  /** What a cell shows when it has a record: the display code, the
      background and the text colour. */
  datatype CellContent = CellContent(code: string, background: Background, textColor: string)

  datatype TableCell = TableCell(content: Option<CellContent>, clickable: bool)

  /** `getRecordForCell(empId, dateKey)`. */
  function RecordFor(records: Records, empId: string, dateKey: string): (r: Option<ScheduleRecord>)
    ensures r.Some? <==> (empId, dateKey) in records
    ensures r.Some? ==> r.value == records[(empId, dateKey)]
  {
    if (empId, dateKey) in records then Some(records[(empId, dateKey)]) else None
  }

  /** A header day is red on a weekend or when the holiday lookup, which is
      given here as its result, names a holiday. */
  function IsRedDay(year: int, month: int, day: int, holidayName: Option<string>): (red: bool)
    ensures red <==> DayName(year, month, day) == "Min" || DayName(year, month, day) == "Sab"
                     || Truthy(holidayName)
  {
    IsWeekend(year, month, day) || Truthy(holidayName)
  }

  /** A cell can be clicked by an editor, or by the employee it belongs to when
      it has a record. */
  function IsClickable(canEdit: bool, currentNip: Option<string>, employeeId: string,
                       hasRecord: bool): (r: bool)
    ensures canEdit ==> r
    ensures !canEdit ==> (r <==> hasRecord && currentNip == Some(employeeId))
  {
    canEdit || (currentNip == Some(employeeId) && hasRecord)
  }

  /** The cell of one employee on one day. */
  function CellAt(emp: Employee, year: int, month: int, day: int, records: Records,
                  canEdit: bool, currentNip: Option<string>,
                  shifts: seq<MasterRecord>, units: seq<MasterRecord>): (cell: TableCell)
    ensures cell.content.Some? <==> (emp.employeeId, DateKey(year, month, day)) in records
    ensures !canEdit && cell.clickable ==> cell.content.Some? && currentNip == Some(emp.employeeId)
    ensures canEdit ==> cell.clickable
    ensures cell.clickable <==> canEdit || (currentNip == Some(emp.employeeId) && cell.content.Some?)
    ensures var res := Resolve(Table, RecordFor(records, emp.employeeId, DateKey(year, month, day)), shifts, units);
      cell.content.Some? ==> cell.content.value == CellContent(res.code, res.background, res.textColor)
  {
    var record := RecordFor(records, emp.employeeId, DateKey(year, month, day));
    var resolved := Resolve(Table, record, shifts, units);
    var content :=
      if record.Some? then Some(CellContent(resolved.code, resolved.background, resolved.textColor))
      else None;
    TableCell(content, IsClickable(canEdit, currentNip, emp.employeeId, record.Some?))
  }

  /** The body of the table: one row per employee, one cell per day. */
  function Grid(employees: seq<Employee>, days: seq<int>, year: int, month: int, records: Records,
                canEdit: bool, currentNip: Option<string>,
                shifts: seq<MasterRecord>, units: seq<MasterRecord>): (g: seq<seq<TableCell>>)
    ensures |g| == |employees|
    ensures forall i :: 0 <= i < |g| ==> |g[i]| == |days|
    ensures forall i, j :: 0 <= i < |g| && 0 <= j < |days| ==>
      g[i][j] == CellAt(employees[i], year, month, days[j], records, canEdit, currentNip, shifts, units)
  {
    seq(|employees|, i requires 0 <= i < |employees| =>
      seq(|days|, j requires 0 <= j < |days| =>
        CellAt(employees[i], year, month, days[j], records, canEdit, currentNip, shifts, units)))
  }

  /** Within one month of a four-digit year, distinct days read distinct
      records: the cells of a row never share a record. */
  lemma RowReadsDistinctDays(year: int, month: int, d1: int, d2: int)
    requires 1000 <= year <= 9999 && 0 <= month <= 11
    requires 1 <= d1 <= 31 && 1 <= d2 <= 31 && d1 != d2
    ensures DateKey(year, month, d1) != DateKey(year, month, d2)
  {
    if DateKey(year, month, d1) == DateKey(year, month, d2) {
      DateKeyInjective(year, month, d1, year, month, d2);
    }
  }
}
