/**
 * The entry calendar:
 * - the date range of the month on display;
 * - the lookup from a date to its entry;
 * - where a click on a day leads;
 * - which days are marked, and with which mood.
 *
 * Days are civil dates in the proleptic Gregorian calendar. Formatting a day
 * as `yyyy-MM-dd` is done elsewhere, so the lookups here take the formatted
 * string.
 */
module Entries {

  import opened Wrappers
  import UxSpec
  import Lookup
  import Mood

  // ---------------------------------------------------------------------
  // Civil dates
  // ---------------------------------------------------------------------

  predicate IsLeapYear(y: int) {
    y % 4 == 0 && (y % 100 != 0 || y % 400 == 0)
  }

  function DaysInMonth(y: int, m: UxSpec.Month): (d: int)
    ensures 28 <= d <= 31
    ensures d == 31 <==> m in {1, 3, 5, 7, 8, 10, 12}
    ensures d == 30 <==> m in {4, 6, 9, 11}
    ensures d == 29 <==> m == 2 && IsLeapYear(y)
    ensures d == 28 <==> m == 2 && !IsLeapYear(y)
  {
    if m == 2 then (if IsLeapYear(y) then 29 else 28)
    else if m == 4 || m == 6 || m == 9 || m == 11 then 30
    else 31
  }

  /** A day of a month of a year; the day may be out of range until normalised. */
  datatype CivilDate = CivilDate(year: int, month: UxSpec.Month, day: int)

  predicate Valid(d: CivilDate) {
    1 <= d.day <= DaysInMonth(d.year, d.month)
  }

  function NextMonth(y: int, m: UxSpec.Month): (r: (int, UxSpec.Month)) {
    if m == 12 then (y + 1, 1) else (y, m + 1)
  }

  function PrevMonth(y: int, m: UxSpec.Month): (r: (int, UxSpec.Month))
    ensures NextMonth(r.0, r.1) == (y, m)
  {
    if m == 1 then (y - 1, 12) else (y, m - 1)
  }

  /** A day past the end of its month, carried into later months. */
  function RollForward(y: int, m: UxSpec.Month, d: int): (r: CivilDate)
    requires d >= 1
    ensures Valid(r)
    ensures d <= DaysInMonth(y, m) ==> r == CivilDate(y, m, d)
    decreases d
  {
    if d <= DaysInMonth(y, m) then CivilDate(y, m, d)
    else
      var (ny, nm) := NextMonth(y, m);
      RollForward(ny, nm, d - DaysInMonth(y, m))
  }

  /** A day before the start of its month (0 is the day before the first), borrowed from earlier months. */
  function RollBack(y: int, m: UxSpec.Month, d: int): (r: CivilDate)
    ensures Valid(r)
    ensures 1 <= d <= DaysInMonth(y, m) ==> r == CivilDate(y, m, d)
    decreases if d >= 1 then 0 else 1 - d
  {
    if d >= 1 then RollForward(y, m, d)
    else
      var (py, pm) := PrevMonth(y, m);
      RollBack(py, pm, d + DaysInMonth(py, pm))
  }

  /**
   * `new Date(year, monthIndex, day)` as a local civil date. A year from 0
   * to 99 means 1900 plus that year. The month index counts from 0 and
   * carries whole years; the day carries across months.
   */
  function NewDate(year: int, monthIndex: int, day: int): (r: CivilDate)
    ensures Valid(r)
  {
    var y := if 0 <= year <= 99 then 1900 + year else year;
    RollBack(y + monthIndex / 12, monthIndex % 12 + 1, day)
  }

  /** Day 0 of the month after `m` is the last day of `m`. */
  lemma DayZeroIsLastDay(y: int, m: UxSpec.Month)
    ensures var (ny, nm) := NextMonth(y, m); RollBack(ny, nm, 0) == CivilDate(y, m, DaysInMonth(y, m))
  {
    var (ny, nm) := NextMonth(y, m);
    assert PrevMonth(ny, nm) == (y, m);
  }

  // ---------------------------------------------------------------------
  // The month on display
  // ---------------------------------------------------------------------

  /**
   * `monthRangeStr` as written, for the month on display (its full year and
   * its month, from 1): `new Date(y, m - 1, 1)` and `new Date(y, m, 0)`.
   */
  function MonthRangeAsWritten(year: int, month: UxSpec.Month): (r: (CivilDate, CivilDate))
    ensures Valid(r.0) && Valid(r.1)
  {
    (NewDate(year, month - 1, 1), NewDate(year, month, 0))
  }

  /**
   * The range the query means: from day 1 to the last day of the month on
   * display, within its own year.
   */
  function MonthRange(year: int, month: UxSpec.Month): (r: (CivilDate, CivilDate))
    ensures Valid(r.0) && Valid(r.1)
    ensures r.0.year == year && r.1.year == year && r.0.month == month && r.1.month == month
    ensures r.0.day == 1 && r.0.day <= r.1.day
    ensures r.1.day == DaysInMonth(year, month)
    ensures Valid(CivilDate(year, month, r.1.day)) && !Valid(CivilDate(year, month, r.1.day + 1))
  {
    (CivilDate(year, month, 1), CivilDate(year, month, DaysInMonth(year, month)))
  }

  /** Outside years 0 to 99 the code computes the intended range. */
  lemma MonthRangeAsWrittenAgrees(year: int, month: UxSpec.Month)
    requires !(0 <= year <= 99)
    ensures MonthRangeAsWritten(year, month) == MonthRange(year, month)
  {
    assert (month - 1) / 12 == 0 && (month - 1) % 12 + 1 == month;
    DayZeroIsLastDay(year, month);
    if month == 12 {
      assert month / 12 == 1 && month % 12 + 1 == 1;
    } else {
      assert month / 12 == 0 && month % 12 + 1 == month + 1;
    }
  }

  /** In year 50 the code asks for January 1950, because the `Date` constructor reads two-digit years as 19xx. */
  lemma MonthRangeTwoDigitYear()
    ensures MonthRangeAsWritten(50, 1).0 == CivilDate(1950, 1, 1)
    ensures MonthRangeAsWritten(50, 1).1 == CivilDate(1950, 1, 31)
    ensures MonthRangeAsWritten(50, 1) != MonthRange(50, 1)
  {
    DayZeroIsLastDay(1950, 1);
  }

  // ---------------------------------------------------------------------
  // Entries by date
  // ---------------------------------------------------------------------

  /** A row of the month's entries. */
  datatype CalendarEntry = CalendarEntry(id: string, entryDate: string, mood: Option<string>, title: Option<string>)

  function EntryDate(e: CalendarEntry): string { e.entryDate }

  /** `entryMap`: every entry under its date, a later entry replacing an earlier one of the same date. */
  function EntryMap(entries: seq<CalendarEntry>): map<string, CalendarEntry> {
    Lookup.LastBy(entries, EntryDate)
  }

  /** The entry the map holds for a date, when the list has one. */
  lemma EntryMapSpec(entries: seq<CalendarEntry>, date: string)
    ensures date in EntryMap(entries) <==> exists j :: 0 <= j < |entries| && entries[j].entryDate == date
    ensures date in EntryMap(entries) ==>
      exists j :: Lookup.IsLastIndex(entries, EntryDate, date, j) && EntryMap(entries)[date] == entries[j]
  {
    Lookup.LastBySpec(entries, EntryDate, date);
  }

  /** Where a click on a day leads. */
  datatype Navigation = Stay | OpenEntry(id: string) | WriteOn(date: string)

  /**
   * `onSelect`: no day selected does nothing. A day with an entry opens
   * the entry the map holds, and any other day opens the editor on that day.
   */
  function OnSelect(dateStr: Option<string>, entries: seq<CalendarEntry>): (nav: Navigation)
    ensures nav.Stay? <==> dateStr.None?
    ensures nav.WriteOn? <==> dateStr.Some? && forall j :: 0 <= j < |entries| ==> entries[j].entryDate != dateStr.value
    ensures nav.WriteOn? ==> nav.date == dateStr.value
    ensures nav.OpenEntry? ==> exists j :: Lookup.IsLastIndex(entries, EntryDate, dateStr.value, j) && nav.id == entries[j].id
  {
    if dateStr.None? then Stay
    else
      var m := EntryMap(entries);
      EntryMapSpec(entries, dateStr.value);
      if dateStr.value in m then OpenEntry(m[dateStr.value].id) else WriteOn(dateStr.value)
  }

  /** The `hasEntry` modifier: the day's date is a key of the map. */
  function HasEntry(dateStr: string, entries: seq<CalendarEntry>): (b: bool)
    ensures b <==> exists j :: 0 <= j < |entries| && entries[j].entryDate == dateStr
  {
    EntryMapSpec(entries, dateStr);
    dateStr in EntryMap(entries)
  }

  /** A marked day opens its entry, and an unmarked day opens the editor. */
  lemma MarkedIffOpensEntry(dateStr: string, entries: seq<CalendarEntry>)
    ensures HasEntry(dateStr, entries) <==> OnSelect(Some(dateStr), entries).OpenEntry?
  {
  }

  /** The mood badge of a day button: the emoji of the day's entry, none without one. */
  function DayBadge(dateStr: string, entries: seq<CalendarEntry>): (badge: Option<string>)
    ensures badge.Some? <==> HasEntry(dateStr, entries)
    ensures badge.Some? ==> badge.value in Mood.Options
    ensures badge.Some? ==> exists j :: Lookup.IsLastIndex(entries, EntryDate, dateStr, j) && badge.value == Mood.MoodToEmoji(entries[j].mood)
  {
    var m := EntryMap(entries);
    EntryMapSpec(entries, dateStr);
    if dateStr in m then Some(Mood.MoodToEmoji(m[dateStr].mood)) else None
  }
}
