/** The legend of symbols: per category, the static rows overridden by the
    master records that match them, followed by the master records not yet
    shown; and the decisions of the legend editor. */
module Legend {
  import opened Options
  import opened JsText
  import opened ScheduleUtils
  import opened Constants
  import opened CellResolver

  /** Which master list an entry from the database came from. */
  datatype DbType = UnitDb | ShiftDb

  /** The inline style of an entry from the database. */
  datatype Style = Style(background: string, border: string, text: string)

  /** A legend entry. A static row keeps its style classes; an entry from the
      database has an id, an inline style and the list it came from
      (`isFromDB` is `dbType.Some?`). */
  datatype Entry = Entry(
    id: Option<string>, code: string, caption: string,
    colorClass: Option<string>, textClass: Option<string>,
    category: Category, style: Option<Style>, dbType: Option<DbType>)

  /** Background and border in the record's colour, text in its contrast colour. */
  function StyleOf(color: string): (s: Style)
    ensures s.background == color && s.border == color
    ensures s.text == ContrastYIQ(color)
    ensures s.text == DARK_TEXT || s.text == LIGHT_TEXT
  {
    Style(color, color, ContrastYIQ(color))
  }

  function FromStatic(d: ShiftDefinition): Entry {
    Entry(None, d.code, d.labelText, Some(d.color), Some(d.textColor), d.category, None, None)
  }

  /** A master record matches a static row by normalised code, by the backend
      code of the row's code, or by normalised name against the row's label. */
  predicate StaticMatches(m: MasterRecord, d: ShiftDefinition) {
    var code := NormalizeCode(d.code);
    var c := NormalizeCode(m.code);
    c == code || c == ToBackend(code) || NormalizeCode(m.name) == NormalizeCode(d.labelText)
  }

  /** A static row overridden by the master record `m` of list `t`. */
  function Matched(d: ShiftDefinition, m: MasterRecord, t: DbType): Entry {
    Entry(Some(m.id), d.code, if m.name != "" then m.name else d.labelText,
          Some(d.color), Some(d.textColor), d.category, Some(StyleOf(m.color)), Some(t))
  }

  /** One static row after enrichment: units are searched before shifts and
      the first match wins. */
  function EnrichStatic(d: ShiftDefinition, units: seq<MasterRecord>, shifts: seq<MasterRecord>)
    : (e: Entry)
    ensures e.code == d.code && e.category == d.category
    ensures e.dbType == Some(UnitDb) <==> exists i :: 0 <= i < |units| && StaticMatches(units[i], d)
    ensures e.dbType == Some(ShiftDb) <==>
      (forall i :: 0 <= i < |units| ==> !StaticMatches(units[i], d))
      && exists j :: 0 <= j < |shifts| && StaticMatches(shifts[j], d)
    ensures e.dbType.None? ==> e == FromStatic(d)
    ensures e.dbType == Some(UnitDb) ==>
      exists i :: 0 <= i < |units| && e == Matched(d, units[i], UnitDb)
                  && forall j :: 0 <= j < i ==> !StaticMatches(units[j], d)
    ensures e.dbType == Some(ShiftDb) ==>
      exists i :: 0 <= i < |shifts| && e == Matched(d, shifts[i], ShiftDb)
                  && forall j :: 0 <= j < i ==> !StaticMatches(shifts[j], d)
  {
    match Find(units, m => StaticMatches(m, d))
    case Some(u) => Matched(d, u, UnitDb)
    case None =>
      match Find(shifts, m => StaticMatches(m, d))
      case Some(s) => Matched(d, s, ShiftDb)
      case None => FromStatic(d)
  }

  /** Some entry of `acc` already shows a record with this code or name. */
  predicate Represented(acc: seq<Entry>, code: string, name: string) {
    exists i :: 0 <= i < |acc| &&
      (NormalizeCode(acc[i].code) == NormalizeCode(code) || NormalizeCode(acc[i].caption) == NormalizeCode(name))
  }

  /** A master shift is a leave status when its code is OFF or CUTI or its
      name mentions LIBUR or CUTI. */
  predicate IsLeave(s: MasterRecord) {
    var c := NormalizeCode(s.code);
    var n := NormalizeCode(s.name);
    c == "OFF" || c == "CUTI" || Includes(n, "LIBUR") || Includes(n, "CUTI")
  }

  /** The master records a category appends: every unit for `task`; the
      shifts that are (for `leave`) or are not (for `primary`) leave. */
  predicate Candidate(m: MasterRecord, category: Category) {
    category == Task || (category == Leave && IsLeave(m)) || (category == Primary && !IsLeave(m))
  }

  /** The entry appended for a master record not yet shown. */
  function NewEntry(m: MasterRecord, category: Category): (e: Entry)
    ensures e.code == m.code && e.caption == m.name && e.id == Some(m.id)
    ensures e.dbType == Some(if category == Task then UnitDb else ShiftDb)
    ensures Candidate(m, category) ==> e.category == category
    ensures category != Task ==> (e.category == Leave <==> IsLeave(m)) && e.category != Task
    ensures e.style == Some(StyleOf(m.color)) && e.colorClass.None? && e.textClass.None?
  {
    if category == Task then
      Entry(Some(m.id), m.code, m.name, None, None, Task, Some(StyleOf(m.color)), Some(UnitDb))
    else
      Entry(Some(m.id), m.code, m.name, None, None, if IsLeave(m) then Leave else Primary,
            Some(StyleOf(m.color)), Some(ShiftDb))
  }

  /** The appending pass over `ms`, one record at a time. */
  function AppendMissing(acc: seq<Entry>, ms: seq<MasterRecord>, category: Category): seq<Entry>
    decreases |ms|
  {
    if ms == [] then acc
    else
      var m := ms[0];
      var next := if Candidate(m, category) && !Represented(acc, m.code, m.name)
                  then acc + [NewEntry(m, category)] else acc;
      AppendMissing(next, ms[1..], category)
  }

  /** The static rows of the category, each enriched. */
  function Base(category: Category, units: seq<MasterRecord>, shifts: seq<MasterRecord>): (b: seq<Entry>)
    ensures |b| == |StaticDefs(category)|
  {
    var defs := StaticDefs(category);
    seq(|defs|, i requires 0 <= i < |defs| => EnrichStatic(defs[i], units, shifts))
  }

  /** The list the master records of a category are taken from. */
  function Source(category: Category, units: seq<MasterRecord>, shifts: seq<MasterRecord>): seq<MasterRecord> {
    if category == Task then units else shifts
  }

  /** `enrichDefinitions(category)`. */
  function Enrich(category: Category, units: seq<MasterRecord>, shifts: seq<MasterRecord>): seq<Entry> {
    AppendMissing(Base(category, units, shifts), Source(category, units, shifts), category)
  }

  /** `enrichDefinitions` as the component runs it: map the static rows, then
      push the missing units (task) or shifts (primary and leave). */
  method EnrichDefinitions(category: Category, units: seq<MasterRecord>, shifts: seq<MasterRecord>)
    returns (enriched: seq<Entry>)
    ensures enriched == Enrich(category, units, shifts)
  {
    enriched := Base(category, units, shifts);
    if category == Task {
      var i := 0;
      while i < |units|
        invariant 0 <= i <= |units|
        invariant AppendMissing(enriched, units[i..], category) == Enrich(category, units, shifts)
      {
        var u := units[i];
        assert units[i..][1..] == units[i + 1..];
        if !Represented(enriched, u.code, u.name) {
          enriched := enriched + [NewEntry(u, category)];
        }
        i := i + 1;
      }
    }
    if category == Primary || category == Leave {
      var i := 0;
      while i < |shifts|
        invariant 0 <= i <= |shifts|
        invariant AppendMissing(enriched, shifts[i..], category) == Enrich(category, units, shifts)
      {
        var s := shifts[i];
        assert shifts[i..][1..] == shifts[i + 1..];
        var isLeave := IsLeave(s);
        if (category == Leave && isLeave) || (category == Primary && !isLeave) {
          if !Represented(enriched, s.code, s.name) {
            enriched := enriched + [NewEntry(s, category)];
          }
        }
        i := i + 1;
      }
    }
  }

  // ---------------------------------------------------------------- properties

  /** Appending never changes what is already there. */
  lemma {:induction false} AppendKeepsPrefix(acc: seq<Entry>, ms: seq<MasterRecord>, category: Category)
    ensures acc <= AppendMissing(acc, ms, category)
    decreases |ms|
  {
    if ms != [] {
      var m := ms[0];
      var next := if Candidate(m, category) && !Represented(acc, m.code, m.name)
                  then acc + [NewEntry(m, category)] else acc;
      AppendKeepsPrefix(next, ms[1..], category);
    }
  }

  lemma RepresentedInLonger(acc: seq<Entry>, longer: seq<Entry>, code: string, name: string)
    requires acc <= longer && Represented(acc, code, name)
    ensures Represented(longer, code, name)
  {
    var i :| 0 <= i < |acc| &&
      (NormalizeCode(acc[i].code) == NormalizeCode(code) || NormalizeCode(acc[i].caption) == NormalizeCode(name));
    assert longer[i] == acc[i];
  }

  /** A candidate record is shown once the pass has looked at it: either an
      entry already showed it or the entry appended for it does. */
  lemma HeadCovered(acc: seq<Entry>, m: MasterRecord, category: Category, r: seq<Entry>)
    requires Candidate(m, category)
    requires (if Represented(acc, m.code, m.name) then acc else acc + [NewEntry(m, category)]) <= r
    ensures Represented(r, m.code, m.name)
  {
    if Represented(acc, m.code, m.name) {
      RepresentedInLonger(acc, r, m.code, m.name);
    } else {
      var next := acc + [NewEntry(m, category)];
      assert next[|acc|] == NewEntry(m, category);
      assert Represented(next, m.code, m.name);
      RepresentedInLonger(next, r, m.code, m.name);
    }
  }

  /** After the pass every candidate record is shown by code or by name. */
  lemma {:induction false} AppendCovers(acc: seq<Entry>, ms: seq<MasterRecord>, category: Category)
    ensures forall j :: 0 <= j < |ms| && Candidate(ms[j], category) ==>
      Represented(AppendMissing(acc, ms, category), ms[j].code, ms[j].name)
    decreases |ms|
  {
    if ms != [] {
      var m := ms[0];
      var next := if Candidate(m, category) && !Represented(acc, m.code, m.name)
                  then acc + [NewEntry(m, category)] else acc;
      var r := AppendMissing(next, ms[1..], category);
      assert r == AppendMissing(acc, ms, category);
      AppendCovers(next, ms[1..], category);
      AppendKeepsPrefix(next, ms[1..], category);
      if Candidate(m, category) {
        HeadCovered(acc, m, category, r);
      }
      forall j | 1 <= j < |ms| && Candidate(ms[j], category)
        ensures Represented(r, ms[j].code, ms[j].name)
      {
        assert ms[1..][j - 1] == ms[j];
      }
    }
  }

  /** What the pass appends: entries of the category, from the category's
      list, each repeating neither the code nor the name of an earlier entry. */
  predicate FreshTail(acc: seq<Entry>, r: seq<Entry>, ms: seq<MasterRecord>, category: Category)
    requires acc <= r
  {
    forall k :: |acc| <= k < |r| ==> FreshAt(r, k, ms, category)
  }

  /** Entry `k` of `r` was appended for a candidate of `ms` that no earlier
      entry showed. */
  predicate FreshAt(r: seq<Entry>, k: int, ms: seq<MasterRecord>, category: Category)
    requires 0 <= k < |r|
  {
    && !Represented(r[..k], r[k].code, r[k].caption)
    && r[k].category == category
    && r[k].dbType == Some(if category == Task then UnitDb else ShiftDb)
    && exists j :: 0 <= j < |ms| && Candidate(ms[j], category) && r[k] == NewEntry(ms[j], category)
  }

  /** An entry appended for a later record was appended for a record of the
      whole list. */
  lemma FreshAtInLongerList(r: seq<Entry>, k: int, ms: seq<MasterRecord>, category: Category)
    requires 0 <= k < |r| && ms != [] && FreshAt(r, k, ms[1..], category)
    ensures FreshAt(r, k, ms, category)
  {
    var j :| 0 <= j < |ms[1..]| && Candidate(ms[1..][j], category) && r[k] == NewEntry(ms[1..][j], category);
    assert ms[j + 1] == ms[1..][j];
  }

  /** The entry appended for the head record is fresh. */
  lemma FreshAtHead(acc: seq<Entry>, r: seq<Entry>, ms: seq<MasterRecord>, category: Category)
    requires ms != [] && Candidate(ms[0], category) && !Represented(acc, ms[0].code, ms[0].name)
    requires acc + [NewEntry(ms[0], category)] <= r
    ensures FreshAt(r, |acc|, ms, category)
  {
    assert r[|acc|] == NewEntry(ms[0], category);
    assert r[..|acc|] == acc;
  }

  lemma {:induction false} AppendFresh(acc: seq<Entry>, ms: seq<MasterRecord>, category: Category)
    ensures acc <= AppendMissing(acc, ms, category)
    ensures FreshTail(acc, AppendMissing(acc, ms, category), ms, category)
    decreases |ms|
  {
    AppendKeepsPrefix(acc, ms, category);
    if ms != [] {
      var m := ms[0];
      var added := Candidate(m, category) && !Represented(acc, m.code, m.name);
      var next := if added then acc + [NewEntry(m, category)] else acc;
      var r := AppendMissing(next, ms[1..], category);
      assert r == AppendMissing(acc, ms, category);
      AppendFresh(next, ms[1..], category);
      forall k | |acc| <= k < |r|
        ensures FreshAt(r, k, ms, category)
      {
        if k < |next| {
          FreshAtHead(acc, r, ms, category);
        } else {
          FreshAtInLongerList(r, k, ms, category);
        }
      }
    }
  }

  /** The legend starts with the category's static rows, in table order, each
      enriched from the first matching unit or shift. */
  lemma EnrichStartsWithStatic(category: Category, units: seq<MasterRecord>, shifts: seq<MasterRecord>)
    ensures var r, defs := Enrich(category, units, shifts), StaticDefs(category);
      && |defs| <= |r|
      && forall i :: 0 <= i < |defs| ==> r[i] == EnrichStatic(defs[i], units, shifts)
  {
    AppendKeepsPrefix(Base(category, units, shifts), Source(category, units, shifts), category);
  }

  /** Every entry of a category's legend belongs to that category, and the
      entries after the static rows never repeat a code or a name shown before. */
  lemma EnrichEntries(category: Category, units: seq<MasterRecord>, shifts: seq<MasterRecord>)
    ensures var r, n := Enrich(category, units, shifts), |StaticDefs(category)|;
      && (forall e :: e in r ==> e.category == category)
      && forall k :: n <= k < |r| ==> !Represented(r[..k], r[k].code, r[k].caption)
  {
    var base, ms := Base(category, units, shifts), Source(category, units, shifts);
    var r := Enrich(category, units, shifts);
    AppendFresh(base, ms, category);
    forall e | e in r ensures e.category == category {
      var k :| 0 <= k < |r| && r[k] == e;
      if k < |base| {
        assert e == EnrichStatic(StaticDefs(category)[k], units, shifts);
        assert StaticDefs(category)[k] in StaticDefs(category);
      } else {
        assert FreshAt(r, k, ms, category);
      }
    }
    forall k | |base| <= k < |r| ensures !Represented(r[..k], r[k].code, r[k].caption) {
      assert FreshAt(r, k, ms, category);
    }
  }

  /** The static rows of a category have pairwise distinct codes, each
      already in normal form. */
  lemma StaticCodesDistinct(category: Category)
    ensures var defs := StaticDefs(category);
      && (forall i :: 0 <= i < |defs| ==> NormalizeCode(defs[i].code) == defs[i].code)
      && (forall i, k :: 0 <= i < k < |defs| ==> defs[i].code != defs[k].code)
  {
    StaticDefsByCategory();
    var defs := StaticDefs(category);
    if category == Primary {
      assert defs[0].code == "P" && defs[1].code == "S" && defs[2].code == "M";
      NormalFormFixed("P");
      NormalFormFixed("S");
      NormalFormFixed("M");
    }
  }

  /** A list whose first `n` entries have distinct normalised codes, and whose
      later entries each repeat no code of an entry before them, has distinct
      normalised codes throughout. */
  lemma CodesDistinctFromParts(r: seq<Entry>, n: nat)
    requires n <= |r|
    requires forall i, k :: 0 <= i < k < n ==> NormalizeCode(r[i].code) != NormalizeCode(r[k].code)
    requires forall k :: n <= k < |r| ==> !Represented(r[..k], r[k].code, r[k].caption)
    ensures forall i, k :: 0 <= i < k < |r| ==> NormalizeCode(r[i].code) != NormalizeCode(r[k].code)
  {
    forall i, k | n <= k < |r| && 0 <= i < k ensures NormalizeCode(r[i].code) != NormalizeCode(r[k].code) {
      assert r[..k][i] == r[i];
    }
  }

  /** The static part of a legend keeps the static codes, in table order. */
  lemma StaticCodesKept(category: Category, units: seq<MasterRecord>, shifts: seq<MasterRecord>)
    ensures var r, defs := Enrich(category, units, shifts), StaticDefs(category);
      && |defs| <= |r|
      && forall i :: 0 <= i < |defs| ==> r[i].code == defs[i].code
  {
    EnrichStartsWithStatic(category, units, shifts);
  }

  /** The static part of a legend has no normalised code twice. */
  lemma StaticPrefixDistinct(category: Category, units: seq<MasterRecord>, shifts: seq<MasterRecord>)
    ensures var r, n := Enrich(category, units, shifts), |StaticDefs(category)|;
      && n <= |r|
      && forall i, k :: 0 <= i < k < n ==> NormalizeCode(r[i].code) != NormalizeCode(r[k].code)
  {
    StaticCodesKept(category, units, shifts);
    StaticCodesDistinct(category);
  }

  /** No two entries of a legend share a normalised code, so no two share the
      pair of normalised code and label. */
  lemma EnrichCodesDistinct(category: Category, units: seq<MasterRecord>, shifts: seq<MasterRecord>)
    ensures var r := Enrich(category, units, shifts);
      forall i, k :: 0 <= i < k < |r| ==> NormalizeCode(r[i].code) != NormalizeCode(r[k].code)
  {
    var r := Enrich(category, units, shifts);
    StaticPrefixDistinct(category, units, shifts);
    EnrichEntries(category, units, shifts);
    CodesDistinctFromParts(r, |StaticDefs(category)|);
  }

  /** The task legend shows every master unit, by code or by name. */
  lemma TaskShowsEveryUnit(units: seq<MasterRecord>, shifts: seq<MasterRecord>)
    ensures forall j :: 0 <= j < |units| ==>
      Represented(Enrich(Task, units, shifts), units[j].code, units[j].name)
  {
    AppendCovers(Base(Task, units, shifts), units, Task);
  }

  /** The primary and leave legends show every shift of their kind. */
  lemma ShiftLegendsShowTheirShifts(category: Category, units: seq<MasterRecord>, shifts: seq<MasterRecord>)
    requires category != Task
    ensures forall j :: 0 <= j < |shifts| && Candidate(shifts[j], category) ==>
      Represented(Enrich(category, units, shifts), shifts[j].code, shifts[j].name)
  {
    AppendCovers(Base(category, units, shifts), shifts, category);
  }

  /** Each master shift is a candidate for exactly one of the primary and
      leave legends. */
  lemma ShiftInOneLegend(s: MasterRecord)
    ensures Candidate(s, Primary) != Candidate(s, Leave)
  {
  }

  /** There are no static leave rows, so the leave legend consists of master
      shifts only, each a leave status. */
  lemma LeaveLegendFromShifts(units: seq<MasterRecord>, shifts: seq<MasterRecord>)
    ensures forall e :: e in Enrich(Leave, units, shifts) ==>
      e.dbType == Some(ShiftDb) && e.category == Leave
      && exists j :: 0 <= j < |shifts| && IsLeave(shifts[j]) && e == NewEntry(shifts[j], Leave)
  {
    var r := Enrich(Leave, units, shifts);
    LeaveBaseEmpty(units, shifts);
    AppendFresh([], shifts, Leave);
    forall e | e in r
      ensures e.dbType == Some(ShiftDb) && e.category == Leave
      ensures exists j :: 0 <= j < |shifts| && IsLeave(shifts[j]) && e == NewEntry(shifts[j], Leave)
    {
      var k :| 0 <= k < |r| && r[k] == e;
      assert FreshAt(r, k, shifts, Leave);
    }
  }

  /** There are no static leave rows. */
  lemma LeaveBaseEmpty(units: seq<MasterRecord>, shifts: seq<MasterRecord>)
    ensures Base(Leave, units, shifts) == []
  {
    StaticDefsByCategory();
  }

  // ---------------------------------------------------------------- editor

  /** The editor form. */
  datatype FormData = FormData(code: string, name: string, color: string)

  /** What a save sends. `times` is the start and end time a shift is sent with. */
  datatype Payload = Payload(code: string, name: string, color: string, description: string,
                             isActive: bool, times: Option<(string, string)>)

  /** The request a handler issues, or why it issues none. */
  datatype ApiCall =
    | Create(endpoint: string, payload: Payload)
    | Update(endpoint: string, id: string, payload: Payload)
    | Delete(endpoint: string, id: string)
    | Rejected(message: string)
    | NoCall

  const UNITS_ENDPOINT := "/api/units"
  const SHIFTS_ENDPOINT := "/api/shifts"
  const SYSTEM_ITEM_MESSAGE := "Item ini bersifat sistem dan tidak bisa dihapus."
  const DEFAULT_EDIT_COLOR := "#3B82F6"
  const DEFAULT_NEW_COLOR := "#6366f1"

  /** The palette the colour picker offers. */
  const PRESET_COLORS: seq<string> := [
    "#ffffff", "#000000", "#f87171", "#fb923c", "#facc15", "#a3e635",
    "#4ade80", "#2dd4bf", "#22d3ee", "#38bdf8", "#60a5fa", "#818cf8",
    "#a78bfa", "#c084fc", "#e879f9", "#f472b6", "#fb7185"
  ]

  /** `handleOpenModal`'s form: an item's code, label and background colour
      (blue when it has none), or an empty form in indigo. */
  function FormFor(item: Option<Entry>): (f: FormData)
    ensures item.None? ==> f == FormData("", "", DEFAULT_NEW_COLOR)
    ensures item.Some? ==> f.code == item.value.code && f.name == item.value.caption
    ensures item.Some? && item.value.style.Some? && item.value.style.value.background != "" ==>
      f.color == item.value.style.value.background
    ensures item.Some? && (item.value.style.None? || item.value.style.value.background == "") ==>
      f.color == DEFAULT_EDIT_COLOR
  {
    match item
    case None => FormData("", "", DEFAULT_NEW_COLOR)
    case Some(e) =>
      var bg := if e.style.Some? then e.style.value.background else "";
      FormData(e.code, e.caption, if bg != "" then bg else DEFAULT_EDIT_COLOR)
  }

  /** The endpoint of the list a category's records live in. */
  function EndpointFor(category: Category): (r: string)
    ensures r == UNITS_ENDPOINT <==> category == Task
    ensures r == SHIFTS_ENDPOINT <==> category != Task
  {
    if category == Task then UNITS_ENDPOINT else SHIFTS_ENDPOINT
  }

  /** `handleSave`'s payload. */
  function SavePayload(category: Category, form: FormData): (p: Payload)
    ensures p.code == Upper(form.code) && p.name == form.name && p.color == form.color
    ensures p.description == "" && p.isActive
    ensures p.times.Some? <==> category != Task
    ensures p.times.Some? ==> p.times.value == ("00:00", "00:00")
  {
    Payload(Upper(form.code), form.name, form.color, "", true,
            if category != Task then Some(("00:00", "00:00")) else None)
  }

  /** `handleSave`'s request: an update of the edited item when it has an id,
      a create otherwise, on the units endpoint exactly for `task`. */
  function SaveRequest(category: Category, editing: Option<Entry>, form: FormData): (call: ApiCall)
    ensures call.Create? || call.Update?
    ensures call.Update? <==> editing.Some? && Truthy(editing.value.id)
    ensures call.endpoint == UNITS_ENDPOINT <==> category == Task
    ensures call.payload == SavePayload(category, form)
    ensures call.Update? ==> call.id == editing.value.id.value
  {
    var p := SavePayload(category, form);
    if editing.Some? && Truthy(editing.value.id) then Update(EndpointFor(category), editing.value.id.value, p)
    else Create(EndpointFor(category), p)
  }

  /** `handleDelete`: items without an id are refused with a message and no
      request; otherwise, once confirmed, a delete on the units endpoint
      exactly when the item came from the unit list. */
  function DeleteRequest(item: Entry, confirmed: bool): (call: ApiCall)
    ensures !Truthy(item.id) <==> call == Rejected(SYSTEM_ITEM_MESSAGE)
    ensures Truthy(item.id) && !confirmed ==> call == NoCall
    ensures call.Delete? <==> Truthy(item.id) && confirmed
    ensures call.Delete? ==>
      (call.id == item.id.value && (call.endpoint == UNITS_ENDPOINT <==> item.dbType == Some(UnitDb)))
  {
    if !Truthy(item.id) then Rejected(SYSTEM_ITEM_MESSAGE)
    else if !confirmed then NoCall
    else Delete(if item.dbType == Some(UnitDb) then UNITS_ENDPOINT else SHIFTS_ENDPOINT, item.id.value)
  }

  /** Static rows without a database match cannot be deleted. */
  lemma StaticRowsAreSystemItems(d: ShiftDefinition, confirmed: bool)
    ensures DeleteRequest(FromStatic(d), confirmed) == Rejected(SYSTEM_ITEM_MESSAGE)
  {
  }

  /** For the entries a legend appends, saving an edit and deleting use the
      same endpoint. */
  lemma AppendedEntryEndpoints(category: Category, units: seq<MasterRecord>, shifts: seq<MasterRecord>,
                               k: nat, form: FormData)
    requires |StaticDefs(category)| <= k < |Enrich(category, units, shifts)|
    requires Truthy(Enrich(category, units, shifts)[k].id)
    ensures var e := Enrich(category, units, shifts)[k];
      var save, del := SaveRequest(category, Some(e), form), DeleteRequest(e, true);
      save.Update? && del.Delete? && save.endpoint == del.endpoint && save.id == del.id
  {
    var ms := Source(category, units, shifts);
    AppendFresh(Base(category, units, shifts), ms, category);
    assert FreshAt(Enrich(category, units, shifts), k, ms, category);
  }

  /** A static primary or leave row that a master unit matches is edited
      through the shifts endpoint but deleted through the units endpoint, with
      the unit's id both times. */
  lemma UnitMatchedRowEndpoints(category: Category, d: ShiftDefinition,
                                units: seq<MasterRecord>, shifts: seq<MasterRecord>, form: FormData)
    requires category != Task
    requires exists j :: 0 <= j < |units| && StaticMatches(units[j], d)
    requires forall j :: 0 <= j < |units| ==> units[j].id != ""
    ensures var e := EnrichStatic(d, units, shifts);
      var save, del := SaveRequest(category, Some(e), form), DeleteRequest(e, true);
      && save.Update? && save.endpoint == SHIFTS_ENDPOINT
      && del.Delete? && del.endpoint == UNITS_ENDPOINT
      && save.id == del.id
  {
    var e := EnrichStatic(d, units, shifts);
    var i :| 0 <= i < |units| && e == Matched(d, units[i], UnitDb);
    assert Truthy(e.id);
  }

  /** The state of the legend editor. */
  class LegendEditor {
    var isModalOpen: bool
    var editingItem: Option<Entry>
    var activeCategory: Category
    var form: FormData

    constructor ()
      ensures !isModalOpen && editingItem.None? && activeCategory == Task
      ensures form == FormData("", "", "")
    {
      isModalOpen := false;
      editingItem := None;
      activeCategory := Task;
      form := FormData("", "", "");
    }

    /** `handleOpenModal(category, item)`. */
    method OpenModal(category: Category, item: Option<Entry>)
      modifies this
      ensures isModalOpen && activeCategory == category && editingItem == item
      ensures form == FormFor(item)
    {
      activeCategory := category;
      editingItem := item;
      form := FormFor(item);
      isModalOpen := true;
    }

    method SetCode(code: string)
      modifies this`form
      ensures form == old(form).(code := code)
    {
      form := form.(code := code);
    }

    method SetName(name: string)
      modifies this`form
      ensures form == old(form).(name := name)
    {
      form := form.(name := name);
    }

    /** A preset colour was picked. */
    method SetColor(color: string)
      requires color in PRESET_COLORS
      modifies this`form
      ensures form == old(form).(color := color)
    {
      form := form.(color := color);
    }

    method Close()
      modifies this`isModalOpen
      ensures !isModalOpen
    {
      isModalOpen := false;
    }

    /** `handleSave`: the request is issued; the modal closes only when the
      request succeeds. */
    method Save(succeeded: bool) returns (call: ApiCall)
      requires isModalOpen
      modifies this`isModalOpen
      ensures call == SaveRequest(activeCategory, editingItem, form)
      ensures isModalOpen == !succeeded
    {
      call := SaveRequest(activeCategory, editingItem, form);
      if succeeded {
        isModalOpen := false;
      }
    }
  }

  /** Opening an item of the database and saving it unchanged updates that
      record with its own code (upper-cased), name and colour. */
  lemma EditRoundTrip(category: Category, e: Entry)
    requires Truthy(e.id) && e.style.Some? && e.style.value.background != ""
    ensures SaveRequest(category, Some(e), FormFor(Some(e)))
      == Update(EndpointFor(category), e.id.value,
                SavePayload(category, FormData(e.code, e.caption, e.style.value.background)))
  {
  }

  /** Opening a database item that has no background colour and saving it
      unchanged writes the editor's default blue into that record. */
  lemma EditRoundTripDefaultColor(category: Category, e: Entry)
    requires Truthy(e.id) && (e.style.None? || e.style.value.background == "")
    ensures SaveRequest(category, Some(e), FormFor(Some(e)))
      == Update(EndpointFor(category), e.id.value,
                SavePayload(category, FormData(e.code, e.caption, DEFAULT_EDIT_COLOR)))
  {
  }
}
