/** The pure helpers of the roster: code normalisation, the short-to-backend
    code table, the black/white text-colour choice, date keys, calendar
    queries and the shift-duration calculation. */
module ScheduleUtils {
  import opened Options
  import opened JsText
  import opened Calendar

  // ---------------------------------------------------------------- codes

  /** `normalizeCode`: trim, then upper-case. */
  function NormalizeCode(s: string): (r: string)
    ensures Trimmed(r)
    ensures forall i :: 0 <= i < |r| ==> !IsLower(r[i])
    ensures |r| <= |s|
  {
    Upper(Trim(s))
  }

  /** The normal form of `s` is the slice of `s` between the white space at
      its ends, upper-cased character by character; with the trimmed shape
      above, this fixes the result. */
  lemma NormalizeCodeValue(s: string)
    ensures exists i, j :: 0 <= i <= j <= |s| && NormalizeCode(s) == Upper(s[i..j])
                           && AllSpace(s[..i]) && AllSpace(s[j..])
  {
    TrimSlice(s);
  }

  /** `normalizeCode` on a value that may be undefined: undefined stays
      undefined, nothing is thrown. */
  function NormalizeOpt(s: Option<string>): (r: Option<string>)
    ensures r.None? <==> s.None?
    ensures s.Some? ==> r.value == NormalizeCode(s.value)
  {
    match s
    case None => None
    case Some(v) => Some(NormalizeCode(v))
  }

  /** Normal form is a fixed point: a trimmed code without lower-case
      letters normalises to itself. */
  lemma NormalFormFixed(s: string)
    requires Trimmed(s) && forall i :: 0 <= i < |s| ==> !IsLower(s[i])
    ensures NormalizeCode(s) == s
  {
    assert Trim(s) == s;
    assert Upper(s) == s;
  }

  /** Normalising twice is normalising once. */
  lemma NormalizeIdempotent(s: string)
    ensures NormalizeCode(NormalizeCode(s)) == NormalizeCode(s)
  {
    NormalFormFixed(NormalizeCode(s));
  }

  /** `BACKEND_CODE_MAP`: short display codes to the codes stored in the
      backend's master tables. */
  const BACKEND_CODE_MAP: map<string, string> :=
    map["P" := "PAGI", "S" := "SIANG", "M" := "MALAM", "L" := "OFF",
        "OFF" := "OFF", "C" := "CUTI", "CUTI" := "CUTI", "LB" := "OFF"]

  /** `BACKEND_CODE_MAP[c] || c`: the backend code of `c`, or `c` itself. */
  function ToBackend(c: string): (r: string)
    ensures c !in BACKEND_CODE_MAP ==> r == c
    ensures c in BACKEND_CODE_MAP ==> r == BACKEND_CODE_MAP[c]
    ensures r in BACKEND_CODE_MAP.Values || r == c
  {
    BackendKeys();
    if c in BACKEND_CODE_MAP && BACKEND_CODE_MAP[c] != "" then BACKEND_CODE_MAP[c] else c
  }

  /** Every code of the table is a fixed point of the mapping, so mapping twice
      is mapping once. */
  lemma ToBackendIdempotent(c: string)
    ensures forall k :: k in BACKEND_CODE_MAP ==> ToBackend(BACKEND_CODE_MAP[k]) == BACKEND_CODE_MAP[k]
    ensures ToBackend(ToBackend(c)) == ToBackend(c)
  {
    BackendKeys();
  }

  lemma BackendKeys()
    ensures BACKEND_CODE_MAP.Keys == {"P", "S", "M", "L", "OFF", "C", "CUTI", "LB"}
  {
  }

  /** `P` maps to `PAGI`, which is not itself a key of the table. */
  lemma BackendOfP()
    ensures "P" in BACKEND_CODE_MAP && BACKEND_CODE_MAP["P"] == "PAGI"
    ensures "PAGI" !in BACKEND_CODE_MAP
  {
    BackendKeys();
  }

  // ---------------------------------------------------------------- contrast

  const DARK_TEXT := "#111827"
  const LIGHT_TEXT := "#FFFFFF"

  /** The weighted brightness of ITU-R BT.601, scaled by 1000. */
  function Luma(r: int, g: int, b: int): int {
    299 * r + 587 * g + 114 * b
  }

  /** All three channels were read and `yiq >= 128`, i.e. the scaled brightness
      reaches 128000. */
  predicate Bright(ch: (Option<int>, Option<int>, Option<int>)) {
    ch.0.Some? && ch.1.Some? && ch.2.Some? && Luma(ch.0.value, ch.1.value, ch.2.value) >= 128000
  }

  /** The three channels `getContrastYIQ` parses: the first `#` is removed and
      characters 0-2, 2-4 and 4-6 are read with `parseInt(_, 16)`. */
  function Channels(hexcolor: string): (Option<int>, Option<int>, Option<int>) {
    var hex := RemoveFirst(hexcolor, '#');
    (ParseIntHex(Substring(hex, 0, 2)), ParseIntHex(Substring(hex, 2, 4)),
     ParseIntHex(Substring(hex, 4, 6)))
  }

  /** `getContrastYIQ`: dark text on a bright background, white text
      otherwise. An empty colour gives dark text; a colour with an unreadable
      channel makes the brightness NaN, and NaN >= 128 is false, so it gives
      white text. */
  function ContrastYIQ(hexcolor: string): (r: string)
    ensures r == DARK_TEXT || r == LIGHT_TEXT
    ensures hexcolor == "" ==> r == DARK_TEXT
    ensures hexcolor != "" ==> (r == DARK_TEXT <==> Bright(Channels(hexcolor)))
  {
    if hexcolor == "" then DARK_TEXT
    else if Bright(Channels(hexcolor)) then DARK_TEXT
    else LIGHT_TEXT
  }

  /** Six hexadecimal digits: an RGB colour without its `#`. */
  predicate IsSixHex(h: string) {
    |h| == 6 && AllHex(h)
  }

  /** The value of the hexadecimal pair at `i` of a six-digit colour. */
  function PairValue(h: string, i: nat): (v: nat)
    requires IsSixHex(h) && i <= 4
    ensures v < 256
  {
    var t := h[i..i + 2];
    assert t[..1] == [t[0]] && t[..1][..0] == [];
    assert HexValue(t[..1]) == HexDigitValue(t[0]);
    HexValue(t)
  }

  lemma TwoHexChannel(h: string, i: nat)
    requires IsSixHex(h) && i <= 4
    ensures ParseIntHex(Substring(h, i, i + 2)) == Some(PairValue(h, i))
  {
    var t := h[i..i + 2];
    assert IsHexDigit(t[0]) && IsHexDigit(t[1]);
    assert AllHex(t);
    assert Substring(h, i, i + 2) == t;
    ParseIntHexOfDigits(t);
  }

  lemma HashRemoved(hexcolor: string, h: string)
    requires IsSixHex(h) && (hexcolor == h || hexcolor == "#" + h)
    ensures RemoveFirst(hexcolor, '#') == h
  {
    assert forall i :: 0 <= i < |h| ==> h[i] != '#';
  }

  /** The channels of a well-formed colour, with or without `#`, are its
      three hexadecimal pairs. */
  lemma ChannelsOfHexColor(hexcolor: string, h: string)
    requires IsSixHex(h) && (hexcolor == h || hexcolor == "#" + h)
    ensures Channels(hexcolor) == (Some(PairValue(h, 0)), Some(PairValue(h, 2)), Some(PairValue(h, 4)))
  {
    HashRemoved(hexcolor, h);
    var hex := RemoveFirst(hexcolor, '#');
    assert ParseIntHex(Substring(hex, 0, 2)) == Some(PairValue(h, 0)) by { TwoHexChannel(h, 0); }
    assert ParseIntHex(Substring(hex, 2, 4)) == Some(PairValue(h, 2)) by { TwoHexChannel(h, 2); }
    assert ParseIntHex(Substring(hex, 4, 6)) == Some(PairValue(h, 4)) by { TwoHexChannel(h, 4); }
  }

  /** For a well-formed colour, with or without `#`, the text is dark exactly
      when the BT.601 brightness reaches 128 of 255. */
  lemma ContrastOfHexColor(hexcolor: string, h: string)
    requires IsSixHex(h) && (hexcolor == h || hexcolor == "#" + h)
    ensures ContrastYIQ(hexcolor) == DARK_TEXT
            <==> Luma(PairValue(h, 0), PairValue(h, 2), PairValue(h, 4)) >= 128000
  {
    ChannelsOfHexColor(hexcolor, h);
  }

  /** Brightening a well-formed colour never turns dark text into white. */
  lemma ContrastMonotone(h: string, k: string)
    requires IsSixHex(h) && IsSixHex(k)
    requires PairValue(h, 0) <= PairValue(k, 0) && PairValue(h, 2) <= PairValue(k, 2)
    requires PairValue(h, 4) <= PairValue(k, 4)
    ensures ContrastYIQ("#" + h) == DARK_TEXT ==> ContrastYIQ("#" + k) == DARK_TEXT
  {
    ContrastOfHexColor("#" + h, h);
    ContrastOfHexColor("#" + k, k);
  }

  /** A white background, written `#ffffff` as the roster views write it,
      gets dark text. */
  lemma ContrastOfWhite()
    ensures ContrastYIQ("#ffffff") == DARK_TEXT
  {
    var w := "ffffff";
    assert IsSixHex(w);
    assert PairValue(w, 0) == 255 && PairValue(w, 2) == 255 && PairValue(w, 4) == 255 by {
      assert w[0..2] == "ff" && w[2..4] == "ff" && w[4..6] == "ff";
      assert HexValue("ff") == 255;
    }
    assert "#" + w == "#ffffff";
    ContrastOfHexColor("#" + w, w);
  }

  /** A black background gets white text. */
  lemma ContrastOfBlack()
    ensures ContrastYIQ("#000000") == LIGHT_TEXT
  {
    var b := "000000";
    assert IsSixHex(b);
    assert PairValue(b, 0) == 0 && PairValue(b, 2) == 0 && PairValue(b, 4) == 0 by {
      assert b[0..2] == "00" && b[2..4] == "00" && b[4..6] == "00";
      assert HexValue("00") == 0;
    }
    assert "#" + b == "#000000";
    ContrastOfHexColor("#" + b, b);
  }

  /** A colour name is not read as hexadecimal: its first channel is NaN, so
      the text is white, not the dark default. */
  lemma ContrastOfColorName(hexcolor: string)
    requires hexcolor != [] && !IsHexDigit(hexcolor[0]) && !IsSpace(hexcolor[0])
    requires hexcolor[0] != '#' && hexcolor[0] != '+' && hexcolor[0] != '-'
    ensures ContrastYIQ(hexcolor) == LIGHT_TEXT
  {
    var hex := RemoveFirst(hexcolor, '#');
    assert hex != [] && hex[0] == hexcolor[0];
    var t := Substring(hex, 0, 2);
    assert t != [] && t[0] == hex[0];
    ParseIntHexNaN(t);
  }

  lemma ContrastOfColorNameExample()
    ensures ContrastYIQ("not-a-color") == LIGHT_TEXT
  {
    ContrastOfColorName("not-a-color");
  }

  // ---------------------------------------------------------------- dates

  /** `generateDateKey`: `year-MM-DD` with the one-based month and the day
      padded to two digits. */
  function DateKey(year: int, month: int, day: int): (k: string)
    ensures 1000 <= year <= 9999 && 0 <= month <= 11 && 1 <= day <= 31
            ==> && |k| == 10 && k[4] == '-' && k[7] == '-'
                && AllDecimal(k[..4]) && DecimalValue(k[..4]) == year
                && AllDecimal(k[5..7]) && DecimalValue(k[5..7]) == month + 1
                && AllDecimal(k[8..]) && DecimalValue(k[8..]) == day
  {
    var y := IntToString(year);
    var m := PadStart2(IntToString(month + 1));
    var d := PadStart2(IntToString(day));
    if 1000 <= year <= 9999 && 0 <= month <= 11 && 1 <= day <= 31 then
      DateKeyFields(year, month, day);
      y + "-" + m + "-" + d
    else y + "-" + m + "-" + d
  }

  lemma TwoDigitField(n: int)
    requires 1 <= n <= 99
    ensures |PadStart2(IntToString(n))| == 2
    ensures AllDecimal(PadStart2(IntToString(n))) && DecimalValue(PadStart2(IntToString(n))) == n
  {
    var s := NatToDecimal(n);
    DecimalOfNatToDecimal(n);
    if |s| == 1 {
      DecimalLeadingZero(s);
    }
  }

  lemma KeyFields(y: string, m: string, d: string)
    requires |y| == 4 && |m| == 2 && |d| == 2
    ensures var k := y + "-" + m + "-" + d;
      && |k| == 10 && k[4] == '-' && k[7] == '-' && k[..4] == y && k[5..7] == m && k[8..] == d
  {
    var k := y + "-" + m + "-" + d;
    assert k[..4] == y;
    assert k[5..7] == m;
    assert k[8..] == d;
  }

  lemma DateKeyFields(year: int, month: int, day: int)
    requires 1000 <= year <= 9999 && 0 <= month <= 11 && 1 <= day <= 31
    ensures var k := IntToString(year) + "-" + PadStart2(IntToString(month + 1)) + "-" + PadStart2(IntToString(day));
      && |k| == 10 && k[4] == '-' && k[7] == '-'
      && AllDecimal(k[..4]) && DecimalValue(k[..4]) == year
      && AllDecimal(k[5..7]) && DecimalValue(k[5..7]) == month + 1
      && AllDecimal(k[8..]) && DecimalValue(k[8..]) == day
  {
    var y := IntToString(year);
    var m := PadStart2(IntToString(month + 1));
    var d := PadStart2(IntToString(day));
    DecimalOfNatToDecimal(year);
    TwoDigitField(month + 1);
    TwoDigitField(day);
    KeyFields(y, m, d);
  }

  /** Different dates (four-digit years) have different keys. */
  lemma DateKeyInjective(y1: int, m1: int, d1: int, y2: int, m2: int, d2: int)
    requires 1000 <= y1 <= 9999 && 0 <= m1 <= 11 && 1 <= d1 <= 31
    requires 1000 <= y2 <= 9999 && 0 <= m2 <= 11 && 1 <= d2 <= 31
    requires DateKey(y1, m1, d1) == DateKey(y2, m2, d2)
    ensures y1 == y2 && m1 == m2 && d1 == d2
  {
    var k1, k2 := DateKey(y1, m1, d1), DateKey(y2, m2, d2);
    assert DecimalValue(k1[..4]) == DecimalValue(k2[..4]);
  }

  /** `getDaysInMonth(month, year)`, i.e. `new Date(year, month + 1, 0).getDate()`. */
  function DaysInMonth(month: int, year: int): (r: int)
    ensures 28 <= r <= 31
    ensures month % 12 == 1 ==> (r == 29 <==> IsLeap(JsYear(year) + month / 12))
    ensures DayNumber(year, month + 1, 0) == DayNumber(year, month, r)
  {
    var y, m := JsYear(year) + month / 12, month % 12;
    DayZeroIsLastDay(year, month);
    assert DayNumber(year, month, MonthLength(y, m)) == CivilDayNumber(y, m, MonthLength(y, m));
    MonthLength(y, m)
  }

  /** For a month index 0-11 of a year from 100 on, the days of the month are
      its length in the Gregorian calendar. */
  lemma DaysInCalendarMonth(month: int, year: int)
    requires 0 <= month <= 11 && year >= 100
    ensures DaysInMonth(month, year) == MonthLength(year, month)
  {
    assert JsYear(year) + month / 12 == year && month % 12 == month;
  }

  const DAY_NAMES: seq<string> := ["Min", "Sen", "Sel", "Rab", "Kam", "Jum", "Sab"]

  /** `getDayName`: the Indonesian short name of the day of the week. */
  function DayName(year: int, month: int, day: int): (r: string)
    ensures r in DAY_NAMES
  {
    DAY_NAMES[Weekday(year, month, day)]
  }

  /** `isWeekend`: Saturday or Sunday, i.e. the day names "Sab" and "Min". */
  function IsWeekend(year: int, month: int, day: int): (r: bool)
    ensures r <==> DayName(year, month, day) == "Min" || DayName(year, month, day) == "Sab"
  {
    var w := Weekday(year, month, day);
    w == 0 || w == 6
  }

  // ---------------------------------------------------------------- durations

  /** JavaScript truthiness of an optional string. */
  predicate Truthy(s: Option<string>) {
    s.Some? && s.value != ""
  }

  /** `new Date(dateStr).getDay()` for a date-only ISO string `YYYY-MM-DD`
      with a real day of a real month; `None` for any other string. */
  function DateStringWeekday(dateStr: string): (r: Option<int>)
    ensures r.Some? ==> 0 <= r.value < 7
  {
    if |dateStr| == 10 && dateStr[4] == '-' && dateStr[7] == '-'
       && AllDecimal(dateStr[..4]) && AllDecimal(dateStr[5..7]) && AllDecimal(dateStr[8..])
    then
      var y, mo, d := DecimalValue(dateStr[..4]), DecimalValue(dateStr[5..7]), DecimalValue(dateStr[8..]);
      if 1 <= mo <= 12 && 1 <= d <= MonthLength(y, mo - 1)
      then Some(WeekdayOf(CivilDayNumber(y, mo - 1, d)))
      else None
    else None
  }

  /** A date key names the weekday of the date it was made from. */
  lemma DateKeyWeekday(year: int, month: int, day: int)
    requires 1000 <= year <= 9999 && 0 <= month <= 11 && 1 <= day <= MonthLength(year, month)
    ensures DateStringWeekday(DateKey(year, month, day)) == Some(Weekday(year, month, day))
  {
    DateKeyParses(year, month, day);
    assert JsYear(year) + month / 12 == year && month % 12 == month;
  }

  lemma DateKeyParses(year: int, month: int, day: int)
    requires 1000 <= year <= 9999 && 0 <= month <= 11 && 1 <= day <= MonthLength(year, month)
    ensures DateStringWeekday(DateKey(year, month, day)) == Some(WeekdayOf(CivilDayNumber(year, month, day)))
  {
    DateStringFields(DateKey(year, month, day), year, month + 1, day);
  }

  /** A date string whose three fields read as a real date names its weekday. */
  lemma DateStringFields(k: string, y: nat, mo: nat, d: nat)
    requires |k| == 10 && k[4] == '-' && k[7] == '-'
    requires AllDecimal(k[..4]) && DecimalValue(k[..4]) == y
    requires AllDecimal(k[5..7]) && DecimalValue(k[5..7]) == mo
    requires AllDecimal(k[8..]) && DecimalValue(k[8..]) == d
    requires 1 <= mo <= 12 && 1 <= d <= MonthLength(y, mo - 1)
    ensures DateStringWeekday(k) == Some(WeekdayOf(CivilDayNumber(y, mo - 1, d)))
  {
  }

  /** The weekend morning rule applies: a date and a code are given, the code
      normalises to `P` or `PAGI`, and the date is a Saturday or a Sunday. */
  predicate WeekendMorning(shiftCode: Option<string>, dateStr: Option<string>) {
    && Truthy(dateStr) && Truthy(shiftCode)
    && (NormalizeCode(shiftCode.value) == "P" || NormalizeCode(shiftCode.value) == "PAGI")
    && (DateStringWeekday(dateStr.value) == Some(0) || DateStringWeekday(dateStr.value) == Some(6))
  }

  /** `HH:mm` (seconds, if any, ignored) read as `split(':').map(Number)`
      and turned into minutes since midnight; `None` is NaN. */
  function TimeMinutes(t: string): Option<int> {
    match IndexOf(t, ':')
    case None => None
    case Some(i) =>
      var rest := t[i + 1..];
      var minutePart := match IndexOf(rest, ':') case None => rest case Some(j) => rest[..j];
      match (JsNumber(t[..i]), JsNumber(minutePart))
      case (Some(h), Some(m)) => Some(h * 60 + m)
      case _ => None
  }

  /** A well-formed time `HH:MM` of a 24-hour clock. */
  predicate ValidHHMM(t: string) {
    && |t| == 5 && t[2] == ':'
    && AllDecimal(t[..2]) && AllDecimal(t[3..])
    && DecimalValue(t[..2]) < 24 && DecimalValue(t[3..]) < 60
  }

  function HHMMValue(t: string): int
    requires ValidHHMM(t)
  {
    DecimalValue(t[..2]) * 60 + DecimalValue(t[3..])
  }

  lemma ColonAtTwo(t: string)
    requires ValidHHMM(t)
    ensures IndexOf(t, ':') == Some(2) && IndexOf(t[3..], ':') == None
  {
    assert IsDecimalDigit(t[0]) && IsDecimalDigit(t[1]);
    var rest := t[3..];
    assert forall k :: 0 <= k < |rest| ==> IsDecimalDigit(rest[k]);
  }

  lemma TimeMinutesOfValid(t: string)
    requires ValidHHMM(t)
    ensures TimeMinutes(t) == Some(HHMMValue(t)) && 0 <= HHMMValue(t) < 1440
  {
    ColonAtTwo(t);
  }

  /** The `HH:MM` text of a time of day. */
  function Clock(h: nat, m: nat): (t: string)
    requires h < 24 && m < 60
    ensures |t| == 5
  {
    [DigitChar(h / 10), DigitChar(h % 10), ':', DigitChar(m / 10), DigitChar(m % 10)]
  }

  lemma ClockValue(h: nat, m: nat)
    requires h < 24 && m < 60
    ensures ValidHHMM(Clock(h, m)) && HHMMValue(Clock(h, m)) == h * 60 + m
    ensures TimeMinutes(Clock(h, m)) == Some(h * 60 + m)
  {
    var t := Clock(h, m);
    assert t[..2] == [DigitChar(h / 10), DigitChar(h % 10)];
    assert t[3..] == [DigitChar(m / 10), DigitChar(m % 10)];
    TwoDigitNumeral(h);
    TwoDigitNumeral(m);
    TimeMinutesOfValid(t);
  }

  /** The fixed weekend morning shift, 07:30 to 14:30. */
  const WEEKEND_MORNING_START := "07:30"
  const WEEKEND_MORNING_END := "14:30"

  lemma WeekendMorningTimes()
    ensures TimeMinutes(WEEKEND_MORNING_START) == Some(450)
    ensures TimeMinutes(WEEKEND_MORNING_END) == Some(870)
  {
    assert Clock(7, 30) == WEEKEND_MORNING_START;
    assert Clock(14, 30) == WEEKEND_MORNING_END;
    ClockValue(7, 30);
    ClockValue(14, 30);
  }

  /** Lines 78-89 of `calculateShiftHours`: the minutes from `sTime` to
      `eTime`, a day added when the end is before the start. */
  function ClockDuration(sTime: string, eTime: string): Option<int> {
    match (TimeMinutes(sTime), TimeMinutes(eTime))
    case (Some(startMinutes), Some(endMinutes)) =>
      var endM := if endMinutes < startMinutes then endMinutes + 24 * 60 else endMinutes;
      Some(endM - startMinutes)
    case _ => None
  }

  lemma ClockDurationOfValid(sTime: string, eTime: string)
    requires ValidHHMM(sTime) && ValidHHMM(eTime)
    ensures var s, e := HHMMValue(sTime), HHMMValue(eTime);
      ClockDuration(sTime, eTime) == Some(if e < s then e + 1440 - s else e - s)
  {
    var s, e := HHMMValue(sTime), HHMMValue(eTime);
    assert TimeMinutes(sTime) == Some(s) by { TimeMinutesOfValid(sTime); }
    assert TimeMinutes(eTime) == Some(e) by { TimeMinutesOfValid(eTime); }
  }

  /** `calculateShiftHours` in minutes (hours are these minutes / 60): 0 when a
      time is missing; the weekend morning rule replaces the times by
      07:30-14:30; an end before the start wraps past midnight. `None` is NaN. */
  function ShiftMinutes(startTime: Option<string>, endTime: Option<string>,
                        shiftCode: Option<string>, dateStr: Option<string>): (r: Option<int>)
    ensures !Truthy(startTime) || !Truthy(endTime) ==> r == Some(0)
    ensures Truthy(startTime) && Truthy(endTime) && WeekendMorning(shiftCode, dateStr) ==> r == Some(420)
    ensures (Truthy(startTime) && Truthy(endTime) && !WeekendMorning(shiftCode, dateStr))
      ==> r == ClockDuration(startTime.value, endTime.value)
  {
    if !Truthy(startTime) || !Truthy(endTime) then Some(0)
    else if WeekendMorning(shiftCode, dateStr) then
      WeekendMorningTimes();
      ClockDuration(WEEKEND_MORNING_START, WEEKEND_MORNING_END)
    else ClockDuration(startTime.value, endTime.value)
  }

  /** For well-formed times the duration lies within one day; outside the
      weekend morning rule it is the clock difference, plus a day when the end
      is before the start, so equal times give 0 and not 24 hours. */
  lemma ShiftMinutesWithinDay(startTime: string, endTime: string,
                              shiftCode: Option<string>, dateStr: Option<string>)
    requires ValidHHMM(startTime) && ValidHHMM(endTime)
    ensures var r := ShiftMinutes(Some(startTime), Some(endTime), shiftCode, dateStr);
      && r.Some? && 0 <= r.value < 1440
      && (!WeekendMorning(shiftCode, dateStr) ==>
            var s, e := HHMMValue(startTime), HHMMValue(endTime);
            r.value == if e < s then e + 1440 - s else e - s)
  {
    TimeMinutesOfValid(startTime);
    TimeMinutesOfValid(endTime);
    ClockDurationOfValid(startTime, endTime);
  }

  /** A morning shift on a weekend date key always lasts 7 hours. */
  lemma WeekendMorningOnDateKey(startTime: string, endTime: string, code: string,
                                year: int, month: int, day: int)
    requires startTime != "" && endTime != ""
    requires NormalizeCode(code) == "P" || NormalizeCode(code) == "PAGI"
    requires 1000 <= year <= 9999 && 0 <= month <= 11 && 1 <= day <= MonthLength(year, month)
    requires IsWeekend(year, month, day)
    ensures ShiftMinutes(Some(startTime), Some(endTime), Some(code), Some(DateKey(year, month, day))) == Some(420)
  {
    WeekendKey(code, year, month, day);
  }

  /** On a real date, the weekend morning rule applies to the date's key
      exactly when the code normalises to `P` or `PAGI` and the date is a
      Saturday or a Sunday. */
  lemma WeekendKey(code: string, year: int, month: int, day: int)
    requires 1000 <= year <= 9999 && 0 <= month <= 11 && 1 <= day <= MonthLength(year, month)
    ensures WeekendMorning(Some(code), Some(DateKey(year, month, day)))
            <==> (NormalizeCode(code) == "P" || NormalizeCode(code) == "PAGI") && IsWeekend(year, month, day)
  {
    var k := DateKey(year, month, day);
    DateKeyWeekday(year, month, day);
    WeekendMorningOnWeekday(code, k, Weekday(year, month, day));
  }

  /** On a date string naming weekday `w`, the weekend morning rule applies
      exactly when the code normalises to `P` or `PAGI` and `w` is Sunday or
      Saturday. */
  lemma WeekendMorningOnWeekday(code: string, dateStr: string, w: int)
    requires dateStr != "" && DateStringWeekday(dateStr) == Some(w)
    ensures WeekendMorning(Some(code), Some(dateStr))
            <==> (NormalizeCode(code) == "P" || NormalizeCode(code) == "PAGI") && (w == 0 || w == 6)
  {
    assert |NormalizeCode(code)| <= |code|;
  }

  /** A day shift 07:00-14:00 lasts 7 hours. */
  lemma DayShiftExample()
    ensures ShiftMinutes(Some("07:00"), Some("14:00"), None, None) == Some(420)
  {
    assert ValidHHMM("07:00") && HHMMValue("07:00") == 420 by { assert Clock(7, 0) == "07:00"; ClockValue(7, 0); }
    assert ValidHHMM("14:00") && HHMMValue("14:00") == 840 by { assert Clock(14, 0) == "14:00"; ClockValue(14, 0); }
    ShiftMinutesWithinDay("07:00", "14:00", None, None);
  }

  /** A night shift 21:00-07:00 wraps past midnight and lasts 10 hours. */
  lemma NightShiftExample()
    ensures ShiftMinutes(Some("21:00"), Some("07:00"), None, None) == Some(600)
  {
    assert ValidHHMM("21:00") && HHMMValue("21:00") == 1260 by { assert Clock(21, 0) == "21:00"; ClockValue(21, 0); }
    assert ValidHHMM("07:00") && HHMMValue("07:00") == 420 by { assert Clock(7, 0) == "07:00"; ClockValue(7, 0); }
    ShiftMinutesWithinDay("21:00", "07:00", None, None);
  }

  /** The key of 1 June 2024. */
  lemma DateKeyExample()
    ensures DateKey(2024, 5, 1) == "2024-06-01"
  {
    assert NatToDecimal(2024) == "2024" by {
      assert NatToDecimal(2) == "2";
      assert NatToDecimal(20) == "20";
      assert NatToDecimal(202) == "202";
    }
    assert PadStart2(IntToString(6)) == "06" by { assert NatToDecimal(6) == "6"; }
    assert PadStart2(IntToString(1)) == "01" by { assert NatToDecimal(1) == "1"; }
  }

  /** 1 June 2024 was a Saturday. */
  lemma SaturdayExample()
    ensures IsWeekend(2024, 5, 1)
  {
    assert Weekday(2024, 5, 1) == 6 by {
      assert LeapsBefore(2024) == 490 by { assert 2023 / 4 == 505 && 2023 / 100 == 20 && 2023 / 400 == 5; }
      assert LeapsBefore(1970) == 477 by { assert 1969 / 4 == 492 && 1969 / 100 == 19 && 1969 / 400 == 4; }
      assert DaysBeforeYear(2024) == 19723;
      assert DaysBeforeMonth(2024, 5) == 152 by { assert IsLeap(2024); }
      assert DayNumber(2024, 5, 1) == CivilDayNumber(2024, 5, 1) == 19875;
      assert WeekdayOf(19875) == 6;
    }
  }

  /** A morning shift on Saturday 2024-06-01 counts 7 hours, whatever its
      recorded times. */
  lemma WeekendMorningExample()
    ensures ShiftMinutes(Some("07:00"), Some("15:00"), Some("P"), Some("2024-06-01")) == Some(420)
  {
    assert NormalizeCode("P") == "P" by {
      assert Trimmed("P");
      assert Upper("P")[0] == 'P';
    }
    DateKeyExample();
    SaturdayExample();
    WeekendMorningOnDateKey("07:00", "15:00", "P", 2024, 5, 1);
  }
}
