/** How one roster cell is resolved from a schedule record and the master
    shift and unit lists: its display code, its label (mobile view only), its
    background and its text colour. The desktop table and the mobile list
    resolve cells the same way; they differ only in the code shown for an
    empty cell and in whether a label is computed. */
module CellResolver {
  import opened Options
  import opened JsText
  import opened ScheduleUtils
  import opened Constants

  /** A roster record of one employee on one day; an absent code is "". */
  datatype ScheduleRecord = ScheduleRecord(shiftCode: string, taskCode: string)

  /** A row of the master shift list or of the master unit list; an absent
      name or colour is "". */
  datatype MasterRecord = MasterRecord(id: string, code: string, name: string, color: string)

  /** The cell style: a diagonal split (shift colour first, task colour
      second), one solid colour, or no background at all. */
  datatype Background = Split(shift: string, task: string) | Solid(color: string) | NoBackground

  datatype View = Table | Mobile

  datatype ResolvedCell = ResolvedCell(
    code: string, caption: Option<string>, background: Background, textColor: string)

  /** Index of the first element of `xs` satisfying `p`, as `Array.prototype.find`
      scans. */
  function FirstIndex<T>(xs: seq<T>, p: T -> bool): (r: Option<nat>)
    ensures r.Some? ==> r.value < |xs| && p(xs[r.value])
    ensures r.Some? ==> forall j :: 0 <= j < r.value ==> !p(xs[j])
    ensures r.None? ==> forall j :: 0 <= j < |xs| ==> !p(xs[j])
  {
    if xs == [] then None
    else if p(xs[0]) then Some(0)
    else match FirstIndex(xs[1..], p)
      case None => None
      case Some(i) => Some(i + 1)
  }

  /** `xs.find(p)`. */
  function Find<T>(xs: seq<T>, p: T -> bool): (r: Option<T>)
    ensures r.Some? <==> exists i :: 0 <= i < |xs| && p(xs[i])
    ensures r.Some? ==> r.value in xs && p(r.value)
    ensures r.Some? ==> exists i :: 0 <= i < |xs| && xs[i] == r.value
                                   && forall j :: 0 <= j < i ==> !p(xs[j])
  {
    match FirstIndex(xs, p)
    case None => None
    case Some(i) => Some(xs[i])
  }

  /** `find` returns the element at the first index satisfying `p`. */
  lemma FindFirst<T>(xs: seq<T>, p: T -> bool, i: int)
    requires 0 <= i < |xs| && p(xs[i])
    requires forall j :: 0 <= j < i ==> !p(xs[j])
    ensures Find(xs, p) == Some(xs[i])
  {
    var r := FirstIndex(xs, p);
    assert r.Some?;
    assert r.value == i;
  }

  /** A master shift matches a normalised shift code by its own normalised
      code, or by the backend code the short code maps to. */
  predicate ShiftMatches(s: MasterRecord, nShiftCode: string) {
    var c := NormalizeCode(s.code);
    c == nShiftCode || (nShiftCode in BACKEND_CODE_MAP && c == BACKEND_CODE_MAP[nShiftCode])
  }

  /** A master unit matches a normalised task code by its normalised code only. */
  predicate UnitMatches(u: MasterRecord, nTaskCode: string) {
    NormalizeCode(u.code) == nTaskCode
  }

  /** `i` is the first index of a master shift matching the code. */
  predicate FirstShiftAt(shifts: seq<MasterRecord>, nShiftCode: string, i: int) {
    && 0 <= i < |shifts| && ShiftMatches(shifts[i], nShiftCode)
    && forall j :: 0 <= j < i ==> !ShiftMatches(shifts[j], nShiftCode)
  }

  /** `i` is the first index of a master unit matching the code. */
  predicate FirstUnitAt(units: seq<MasterRecord>, nTaskCode: string, i: int) {
    && 0 <= i < |units| && UnitMatches(units[i], nTaskCode)
    && forall j :: 0 <= j < i ==> !UnitMatches(units[j], nTaskCode)
  }

  /** `shifts.find(...)`: the first matching master shift, `None` when none
      matches. */
  function FindShift(shifts: seq<MasterRecord>, nShiftCode: string): (r: Option<MasterRecord>)
    ensures r.None? <==> forall i :: 0 <= i < |shifts| ==> !ShiftMatches(shifts[i], nShiftCode)
    ensures r.Some? ==> exists i :: FirstShiftAt(shifts, nShiftCode, i) && r.value == shifts[i]
    ensures forall i :: FirstShiftAt(shifts, nShiftCode, i) ==> r == Some(shifts[i])
  {
    var p := s => ShiftMatches(s, nShiftCode);
    forall i | FirstShiftAt(shifts, nShiftCode, i) ensures Find(shifts, p) == Some(shifts[i]) {
      FindFirst(shifts, p, i);
    }
    Find(shifts, p)
  }

  /** `units.find(...)`: the first matching master unit, `None` when none
      matches. */
  function FindUnit(units: seq<MasterRecord>, nTaskCode: string): (r: Option<MasterRecord>)
    ensures r.None? <==> forall i :: 0 <= i < |units| ==> !UnitMatches(units[i], nTaskCode)
    ensures r.Some? ==> exists i :: FirstUnitAt(units, nTaskCode, i) && r.value == units[i]
    ensures forall i :: FirstUnitAt(units, nTaskCode, i) ==> r == Some(units[i])
  {
    var p := u => UnitMatches(u, nTaskCode);
    forall i | FirstUnitAt(units, nTaskCode, i) ensures Find(units, p) == Some(units[i]) {
      FindFirst(units, p, i);
    }
    Find(units, p)
  }

  /** The colour of the static row for a shift code, as the views colour the
      row's class; white for a code without a row. */
  function StaticShiftColor(nShiftCode: string): (c: string)
    ensures nShiftCode == "S" ==> c == "#dbeafe"
    ensures nShiftCode == "M" ==> c == "#4f46e5"
    ensures nShiftCode != "S" && nShiftCode != "M" ==> c == "#ffffff"
  {
    StaticColors();
    ColorClassHex(match Lookup(nShiftCode) case Some(d) => d.color case None => "")
  }

  /** The shift colour of a cell: the matched master shift's colour when it
      has one, else the static row's colour. */
  function ShiftColor(shifts: seq<MasterRecord>, nShiftCode: string): (c: string)
    ensures c != ""
  {
    var m := FindShift(shifts, nShiftCode);
    if m.Some? && m.value.color != "" then m.value.color else StaticShiftColor(nShiftCode)
  }

  /** The task colour of a cell: the matched master unit's colour, "" when no
      unit matches. */
  function TaskColor(units: seq<MasterRecord>, nTaskCode: string): (c: string)
    ensures (forall i :: 0 <= i < |units| ==> !UnitMatches(units[i], nTaskCode)) ==> c == ""
    ensures forall i :: FirstUnitAt(units, nTaskCode, i) ==> c == units[i].color
  {
    var m := FindUnit(units, nTaskCode);
    if m.Some? then m.value.color else ""
  }

  /** The background and text colour chosen by the if/else chain of a cell. */
  function CellStyle(shiftColor: string, taskColor: string, nTaskCode: string, nShiftCode: string)
    : (r: (Background, string))
    ensures r.1 == DARK_TEXT || r.1 == LIGHT_TEXT
    ensures shiftColor != "" ==> r.0 != NoBackground
    ensures r.0 != NoBackground ==> r.1 == ContrastYIQ(Foreground(r.0))
  {
    if taskColor != "" && shiftColor != "" && nTaskCode != "" && nShiftCode != "" then
      (Split(shiftColor, taskColor), ContrastYIQ(taskColor))
    else if taskColor != "" then (Solid(taskColor), ContrastYIQ(taskColor))
    else if shiftColor != "" then (Solid(shiftColor), ContrastYIQ(shiftColor))
    else (NoBackground, DARK_TEXT)
  }

  const NO_SCHEDULE := "Tidak ada jadwal"

  /** The label of the static row under `key`, or the no-schedule text when
      there is none; never empty. */
  function StaticLabel(key: string): (l: string)
    ensures Lookup(key).Some? ==> l == Lookup(key).value.labelText
    ensures Lookup(key).None? ==> l == NO_SCHEDULE
    ensures l != ""
  {
    match Lookup(key)
    case Some(d) =>
      assert (key, d) in SHIFT_DEFINITIONS;
      d.labelText
    case None => NO_SCHEDULE
  }

  /** The mobile label: matched unit name, else matched shift name, else the
      static label for the task code (or, without one, the shift code), else
      the no-schedule text, else "-". Every static label and the no-schedule
      text are non-empty, so the final "-" is never reached and "-" only
      appears as the name of a matched master record. */
  function MobileLabel(unit: Option<MasterRecord>, shift: Option<MasterRecord>,
                       nTaskCode: string, nShiftCode: string): (l: string)
    ensures unit.Some? && unit.value.name != "" ==> l == unit.value.name
    ensures !(unit.Some? && unit.value.name != "") && shift.Some? && shift.value.name != ""
            ==> l == shift.value.name
    ensures !(unit.Some? && unit.value.name != "") && !(shift.Some? && shift.value.name != "")
            ==> l == StaticLabel(if nTaskCode != "" then nTaskCode else nShiftCode)
    ensures l != ""
    ensures l == "-" ==> (unit.Some? && unit.value.name == "-") || (shift.Some? && shift.value.name == "-")
  {
    var key := if nTaskCode != "" then nTaskCode else nShiftCode;
    var defLabel := StaticLabel(key);
    if unit.Some? && unit.value.name != "" then unit.value.name
    else if shift.Some? && shift.value.name != "" then shift.value.name
    else if defLabel != "" then defLabel
    else "-"
  }

  /** The code shown for a cell with neither code. */
  function EmptyCode(view: View): string {
    if view == Table then "" else "-"
  }

  function RecordShift(record: Option<ScheduleRecord>): string {
    if record.Some? then record.value.shiftCode else ""
  }

  function RecordTask(record: Option<ScheduleRecord>): string {
    if record.Some? then record.value.taskCode else ""
  }

  /** The cell resolution of either view. */
  function Resolve(view: View, record: Option<ScheduleRecord>,
                   shifts: seq<MasterRecord>, units: seq<MasterRecord>): (cell: ResolvedCell)
    ensures cell.caption.Some? <==> view == Mobile
    ensures cell.code == "" ==> view == Table
    ensures cell.background != NoBackground
    ensures cell.textColor == ContrastYIQ(Foreground(cell.background))
  {
    var nShift := NormalizeCode(RecordShift(record));
    var nTask := NormalizeCode(RecordTask(record));
    var code := if nTask != "" then nTask else if nShift != "" then nShift else EmptyCode(view);
    var caption :=
      if view == Mobile then Some(MobileLabel(FindUnit(units, nTask), FindShift(shifts, nShift), nTask, nShift))
      else None;
    var style := CellStyle(ShiftColor(shifts, nShift), TaskColor(units, nTask), nTask, nShift);
    ResolvedCell(code, caption, style.0, style.1)
  }

  // ---------------------------------------------------------------- properties

  /** The colour the text is measured against: the task half of a split, or
      the solid colour. */
  function Foreground(b: Background): string {
    match b
    case Split(_, t) => t
    case Solid(c) => c
    case NoBackground => ""
  }

  /** The display code is the normalised task code, else the normalised shift
      code, else the view's empty code; it is always in normal form. */
  lemma ResolveCode(view: View, record: Option<ScheduleRecord>,
                    shifts: seq<MasterRecord>, units: seq<MasterRecord>)
    ensures var c := Resolve(view, record, shifts, units).code;
      var nShift, nTask := NormalizeCode(RecordShift(record)), NormalizeCode(RecordTask(record));
      && (nTask != "" ==> c == nTask)
      && (nTask == "" && nShift != "" ==> c == nShift)
      && (nTask == "" && nShift == "" ==> c == EmptyCode(view))
      && (c == "" <==> view == Table && nTask == "" && nShift == "")
      && (c == EmptyCode(view) || (Trimmed(c) && forall i :: 0 <= i < |c| ==> !IsLower(c[i])))
  {
  }

  /** Shift colours are always defined, so the no-background branch is never
      taken; and the text colour is always the contrast colour of the colour
      in front: the task colour when there is one, the shift colour otherwise. */
  lemma ResolveStyle(view: View, record: Option<ScheduleRecord>,
                     shifts: seq<MasterRecord>, units: seq<MasterRecord>)
    ensures var cell := Resolve(view, record, shifts, units);
      var nTask := NormalizeCode(RecordTask(record));
      && cell.background != NoBackground
      && cell.textColor == ContrastYIQ(Foreground(cell.background))
      && (TaskColor(units, nTask) != "" ==> Foreground(cell.background) == TaskColor(units, nTask))
      && (TaskColor(units, nTask) == "" ==>
            cell.background == Solid(ShiftColor(shifts, NormalizeCode(RecordShift(record)))))
  {
  }

  /** The background is split exactly when a unit with a colour matched and
      both normalised codes are non-empty; the split shows the shift colour
      first and the unit's colour second. */
  lemma SplitIff(view: View, record: Option<ScheduleRecord>,
                 shifts: seq<MasterRecord>, units: seq<MasterRecord>)
    ensures var cell := Resolve(view, record, shifts, units);
      var nShift, nTask := NormalizeCode(RecordShift(record)), NormalizeCode(RecordTask(record));
      var u := FindUnit(units, nTask);
      && (cell.background.Split? <==> u.Some? && u.value.color != "" && nTask != "" && nShift != "")
      && (cell.background.Split? ==>
            cell.background == Split(ShiftColor(shifts, nShift), u.value.color))
  {
  }

  /** The shift colour is the first matching master shift's colour when that
      is non-empty, otherwise the colour of the static row. */
  lemma ShiftColorSource(shifts: seq<MasterRecord>, nShiftCode: string)
    ensures forall i :: 0 <= i < |shifts| && ShiftMatches(shifts[i], nShiftCode)
                        && (forall j :: 0 <= j < i ==> !ShiftMatches(shifts[j], nShiftCode)) ==>
      ShiftColor(shifts, nShiftCode)
        == if shifts[i].color != "" then shifts[i].color else StaticShiftColor(nShiftCode)
    ensures (forall i :: 0 <= i < |shifts| ==> !ShiftMatches(shifts[i], nShiftCode)) ==>
      ShiftColor(shifts, nShiftCode) == StaticShiftColor(nShiftCode)
  {
    forall i | 0 <= i < |shifts| && ShiftMatches(shifts[i], nShiftCode)
               && (forall j :: 0 <= j < i ==> !ShiftMatches(shifts[j], nShiftCode))
      ensures FindShift(shifts, nShiftCode) == Some(shifts[i])
    {
      assert FirstShiftAt(shifts, nShiftCode, i);
    }
  }

  /** Records whose codes normalise alike resolve alike; an absent record
      resolves like a record with neither code. */
  lemma ResolveNormalized(view: View, r1: Option<ScheduleRecord>, r2: Option<ScheduleRecord>,
                          shifts: seq<MasterRecord>, units: seq<MasterRecord>)
    requires NormalizeCode(RecordShift(r1)) == NormalizeCode(RecordShift(r2))
    requires NormalizeCode(RecordTask(r1)) == NormalizeCode(RecordTask(r2))
    ensures Resolve(view, r1, shifts, units) == Resolve(view, r2, shifts, units)
  {
  }

  /** The two views agree on background and text colour; their codes differ
      only for a cell with neither code, and only the mobile view has a label. */
  lemma ViewsAgree(record: Option<ScheduleRecord>, shifts: seq<MasterRecord>, units: seq<MasterRecord>)
    ensures var t, m := Resolve(Table, record, shifts, units), Resolve(Mobile, record, shifts, units);
      && t.background == m.background && t.textColor == m.textColor
      && (t.code == m.code <==> t.code != "")
      && t.caption.None? && m.caption.Some?
  {
  }

  /** The mobile label, in order of precedence: the name of the first master
      unit matching the normalised task code; else the name of the first
      master shift matching the normalised shift code; else the static label
      under the task code (the shift code when the task code is empty), or the
      no-schedule text when there is no static row. A matched record with an
      empty name is passed over. */
  lemma MobileCaptionSource(record: Option<ScheduleRecord>,
                            shifts: seq<MasterRecord>, units: seq<MasterRecord>)
    ensures var c := Resolve(Mobile, record, shifts, units).caption;
      var nShift, nTask := NormalizeCode(RecordShift(record)), NormalizeCode(RecordTask(record));
      var key := if nTask != "" then nTask else nShift;
      && (forall i :: FirstUnitAt(units, nTask, i) && units[i].name != "" ==> c == Some(units[i].name))
      && (forall k :: FirstShiftAt(shifts, nShift, k) && shifts[k].name != ""
                      && (forall i :: FirstUnitAt(units, nTask, i) ==> units[i].name == "")
                      ==> c == Some(shifts[k].name))
      && ((forall i :: FirstUnitAt(units, nTask, i) ==> units[i].name == "")
          && (forall k :: FirstShiftAt(shifts, nShift, k) ==> shifts[k].name == "")
          ==> c == Some(match Lookup(key) case Some(d) => d.labelText case None => NO_SCHEDULE))
  {
    var nShift, nTask := NormalizeCode(RecordShift(record)), NormalizeCode(RecordTask(record));
    LabelOfFirstMatches(shifts, units, nShift, nTask);
  }

  /** The mobile label of the first matches, by precedence. */
  lemma LabelOfFirstMatches(shifts: seq<MasterRecord>, units: seq<MasterRecord>, nShift: string, nTask: string)
    ensures var l := MobileLabel(FindUnit(units, nTask), FindShift(shifts, nShift), nTask, nShift);
      var key := if nTask != "" then nTask else nShift;
      && (forall i :: FirstUnitAt(units, nTask, i) && units[i].name != "" ==> l == units[i].name)
      && (forall k :: FirstShiftAt(shifts, nShift, k) && shifts[k].name != ""
                      && (forall i :: FirstUnitAt(units, nTask, i) ==> units[i].name == "")
                      ==> l == shifts[k].name)
      && ((forall i :: FirstUnitAt(units, nTask, i) ==> units[i].name == "")
          && (forall k :: FirstShiftAt(shifts, nShift, k) ==> shifts[k].name == "")
          ==> l == match Lookup(key) case Some(d) => d.labelText case None => NO_SCHEDULE)
  {
    var u, sh := FindUnit(units, nTask), FindShift(shifts, nShift);
    if u.Some? {
      var i :| FirstUnitAt(units, nTask, i) && u.value == units[i];
    }
    if sh.Some? {
      var k :| FirstShiftAt(shifts, nShift, k) && sh.value == shifts[k];
    }
  }

  /** An absent record on the mobile list: the badge shows "-" on a white
      background with dark text, and its label is the no-schedule text,
      as long as no master record has a blank code. */
  lemma AbsentRecordBadge(shifts: seq<MasterRecord>, units: seq<MasterRecord>)
    requires forall i :: 0 <= i < |shifts| ==> NormalizeCode(shifts[i].code) != ""
    requires forall i :: 0 <= i < |units| ==> NormalizeCode(units[i].code) != ""
    ensures Resolve(Mobile, None, shifts, units)
            == ResolvedCell("-", Some(NO_SCHEDULE), Solid("#ffffff"), DARK_TEXT)
  {
    assert NormalizeCode("") == "";
    assert "" !in BACKEND_CODE_MAP by { BackendKeys(); }
    assert FindShift(shifts, "").None?;
    assert FindUnit(units, "").None?;
    ContrastOfWhite();
  }

  /** The backend alias only works forwards: a record coded `P` finds a master
      shift coded `PAGI`, but a record coded `PAGI` does not find one coded `P`. */
  lemma AliasIsOneWay(id: string, name: string, color: string)
    ensures ShiftMatches(MasterRecord(id, "PAGI", name, color), "P")
    ensures !ShiftMatches(MasterRecord(id, "P", name, color), "PAGI")
  {
    assert NormalizeCode("PAGI") == "PAGI" by { NormalFormFixed("PAGI"); }
    assert NormalizeCode("P") == "P" by { NormalFormFixed("P"); }
    BackendOfP();
  }
}
