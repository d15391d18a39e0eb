/**
 * `formatDate` and `calculateDuration`: a date printed as "day Mon year",
 * and the whole years and months between two dates, printed with plural
 * units. Parsing with `new Date(...)` is taken as done: a date arrives as
 * its local-time fields, or as `None` when the parse gave an invalid date.
 */
module TimeUtils {
  import opened Wrappers
  import opened Strings

  /** The month abbreviations, by month index. */
  const Months: seq<string> :=
    ["Jan", "Feb", "Mar", "Apr", "May", "Jun", "Jul", "Aug", "Sep", "Oct", "Nov", "Dec"]

  /** `getFullYear()`, `getMonth()` (0..11), `getDate()` (1..31) and the milliseconds into the day. */
  datatype Date = Date(year: int, month0: int, day: int, ms: int)

  type CalendarDate = d: Date | 0 <= d.month0 < 12 && 1 <= d.day <= 31 && 0 <= d.ms < 86400000
    witness Date(1970, 0, 1, 0)

  const InvalidDate := "Invalid date string"
  const StartAfterEnd := "Start date must be before end date"

  /** The month index an abbreviation stands for. */
  function MonthIndex(name: string): (r: Option<nat>)
    ensures r.Some? ==> r.value < 12 && Months[r.value] == name
    ensures r.None? ==> name !in Months
  {
    if name in Months then
      var i :| 0 <= i < 12 && Months[i] == name; Some(i)
    else None
  }

  /** The twelve abbreviations are distinct. */
  lemma MonthsDistinct(i: nat, j: nat)
    requires i < 12 && j < 12 && Months[i] == Months[j]
    ensures i == j
  {
  }

  /** `formatDate`: "day Mon year", or the error an invalid date throws. */
  function FormatDate(parsed: Option<CalendarDate>): (r: Result<string>)
    ensures parsed.None? <==> r == Failure(InvalidDate)
    ensures parsed.Some? ==> r.Success?
  {
    match parsed
    case None => Failure(InvalidDate)
    case Some(d) => Success(IntToString(d.day) + " " + Months[d.month0] + " " + IntToString(d.year))
  }

  /** Three space-free words joined by single spaces split back into those words. */
  lemma ThreeWords(a: string, b: string, c: string)
    requires ' ' !in a && ' ' !in b && ' ' !in c
    ensures Split(a + " " + b + " " + c, " ") == [a, b, c]
  {
    SplitThree(a, b, c, " ");
  }

  /**
   * A formatted date is three space-separated words, from which the day,
   * the month index and the year read back.
   */
  lemma FormatDateReadsBack(d: CalendarDate)
    ensures var words := Split(FormatDate(Some(d)).value, " ");
      && |words| == 3
      && words[0] == NatToString(d.day) && ParseDigits(words[0]) == d.day
      && MonthIndex(words[1]) == Some(d.month0 as nat)
      && words[2] == IntToString(d.year)
  {
    var mon := Months[d.month0];
    assert ' ' !in mon;
    ThreeWords(IntToString(d.day), mon, IntToString(d.year));
    ParseNatToString(d.day);
    var i := MonthIndex(mon).value;
    MonthsDistinct(i, d.month0);
  }

  /** `startDate > endDate`, comparing the instants field by field. */
  predicate Later(a: CalendarDate, b: CalendarDate) {
    a.year > b.year
    || (a.year == b.year && a.month0 > b.month0)
    || (a.year == b.year && a.month0 == b.month0 && a.day > b.day)
    || (a.year == b.year && a.month0 == b.month0 && a.day == b.day && a.ms > b.ms)
  }

  /** `Later` is a strict total order on the instants. */
  lemma LaterOrder(a: CalendarDate, b: CalendarDate, c: CalendarDate)
    ensures !Later(a, a)
    ensures Later(a, b) ==> !Later(b, a)
    ensures a != b ==> Later(a, b) || Later(b, a)
    ensures Later(a, b) && Later(b, c) ==> Later(a, c)
  {
  }

  /** Whole years and months. */
  datatype Span = Span(years: int, months: int)

  /** The year and month difference of `getDuration`, borrowing a year when the months go negative. */
  function MonthSpan(start: CalendarDate, end: CalendarDate): (s: Span)
    ensures 0 <= s.months < 12
    ensures s.years * 12 + s.months == (end.year * 12 + end.month0) - (start.year * 12 + start.month0)
    ensures !Later(start, end) ==> s.years >= 0
  {
    var year := end.year - start.year;
    var month := end.month0 - start.month0;
    if month < 0 then Span(year - 1, month + 12) else Span(year, month)
  }

  /** `${n} ${unit}` with an `s` for more than one. */
  function Unit(n: int, unit: string): string {
    IntToString(n) + " " + unit + (if n > 1 then "s" else "")
  }

  lemma NonEmptyPair(a: string, b: string)
    ensures NonEmpty([a, b]) == (if a == "" then [] else [a]) + (if b == "" then [] else [b])
  {
    assert [a, b][1..] == [b];
    assert [b][1..] == [];
  }

  /** The year and month parts, empty when not positive, joined by a space, or "0 months". */
  function DurationText(s: Span): (r: string)
    ensures s.years > 0 && s.months > 0 ==> r == Unit(s.years, "year") + " " + Unit(s.months, "month")
    ensures s.years > 0 && s.months <= 0 ==> r == Unit(s.years, "year")
    ensures s.years <= 0 && s.months > 0 ==> r == Unit(s.months, "month")
    ensures s.years <= 0 && s.months <= 0 ==> r == "0 months"
  {
    var yearPart := if s.years > 0 then Unit(s.years, "year") else "";
    var monthPart := if s.months > 0 then Unit(s.months, "month") else "";
    NonEmptyPair(yearPart, monthPart);
    JoinPair(yearPart, monthPart, " ");
    var joined := Join(NonEmpty([yearPart, monthPart]), " ");
    if joined == "" then "0 months" else joined
  }

  /**
   * `getDuration`: never the reversed-range message, and for an ordered
   * range a text that reads back to the whole years and months between
   * the two dates.
   */
  function GetDuration(start: CalendarDate, end: CalendarDate): (r: string)
    ensures r != StartAfterEnd
    ensures !Later(start, end) ==> ReadDuration(r) == Some(MonthSpan(start, end))
  {
    var span := MonthSpan(start, end);
    DurationNotMessage(span);
    if Later(start, end) then DurationText(span)
    else ReadDurationText(span); DurationText(span)
  }

  /** `calculateDuration`: the error for an invalid date, the message for a reversed range, else the duration. */
  function CalculateDuration(start: Option<CalendarDate>, end: Option<CalendarDate>): (r: Result<string>)
    ensures start.None? || end.None? <==> r == Failure(InvalidDate)
    ensures start.Some? && end.Some? && Later(start.value, end.value) ==> r == Success(StartAfterEnd)
    ensures start.Some? && end.Some? && !Later(start.value, end.value) ==>
      r == Success(GetDuration(start.value, end.value))
      && r.value != StartAfterEnd
      && ReadDuration(r.value) == Some(MonthSpan(start.value, end.value))
  {
    if start.None? || end.None? then Failure(InvalidDate)
    else if Later(start.value, end.value) then Success(StartAfterEnd)
    else Success(GetDuration(start.value, end.value))
  }

  lemma DurationNotMessage(s: Span)
    ensures DurationText(s) != StartAfterEnd
  {
    var r := DurationText(s);
    if s.years > 0 || s.months > 0 {
      var n := if s.years > 0 then s.years else s.months;
      assert r[0] == NatToString(n)[0];
    }
    assert r[0] != 'S';
  }

  predicate AllDigits(w: string) {
    |w| > 0 && forall i :: 0 <= i < |w| ==> '0' <= w[i] <= '9'
  }

  /**
   * Reads a duration text back: four words are years and months, two
   * words are years when the unit starts with "year" and months otherwise.
   */
  function ReadDuration(text: string): Option<Span> {
    var w := Split(text, " ");
    if |w| == 4 && AllDigits(w[0]) && AllDigits(w[2]) then Some(Span(ParseDigits(w[0]), ParseDigits(w[2])))
    else if |w| == 2 && AllDigits(w[0]) && StartsWith(w[1], "year") then Some(Span(ParseDigits(w[0]), 0))
    else if |w| == 2 && AllDigits(w[0]) then Some(Span(0, ParseDigits(w[0])))
    else None
  }

  lemma TwoWords(a: string, b: string)
    requires ' ' !in a && ' ' !in b
    ensures Split(a + " " + b, " ") == [a, b]
  {
    SplitTwo(a, " ", b);
  }

  lemma FourWords(a: string, b: string, c: string, d: string)
    requires ' ' !in a && ' ' !in b && ' ' !in c && ' ' !in d
    ensures Split(a + " " + b + " " + (c + " " + d), " ") == [a, b, c, d]
  {
    SplitFour(a, b, c, d, " ");
  }

  function Plural(unit: string, n: int): string {
    unit + (if n > 1 then "s" else "")
  }

  lemma UnitIsTwoWords(n: nat, unit: string)
    requires ' ' !in unit
    ensures Unit(n, unit) == NatToString(n) + " " + Plural(unit, n)
  {
  }

  lemma ReadYearsAndMonths(y: nat, m: nat)
    requires y > 0 && m > 0
    ensures ReadDuration(Unit(y, "year") + " " + Unit(m, "month")) == Some(Span(y, m))
  {
    var ys, py, ms, pm := NatToString(y), Plural("year", y), NatToString(m), Plural("month", m);
    var text := Unit(y, "year") + " " + Unit(m, "month");
    UnitIsTwoWords(y, "year");
    UnitIsTwoWords(m, "month");
    assert text == ys + " " + py + " " + (ms + " " + pm);
    FourWords(ys, py, ms, pm);
    ReadFour(text, ys, py, ms, pm);
    ParseNatToString(y);
    ParseNatToString(m);
  }

  /** A text of four words, the first and third all digits, reads back as those two numbers. */
  lemma ReadFour(text: string, a: string, b: string, c: string, d: string)
    requires Split(text, " ") == [a, b, c, d] && AllDigits(a) && AllDigits(c)
    ensures ReadDuration(text) == Some(Span(ParseDigits(a), ParseDigits(c)))
  {
  }

  lemma ReadYears(y: nat)
    requires y > 0
    ensures ReadDuration(Unit(y, "year")) == Some(Span(y, 0))
  {
    var ys, py := NatToString(y), Plural("year", y);
    UnitIsTwoWords(y, "year");
    TwoWords(ys, py);
    assert StartsWith(py, "year") by {
      assert py[..4] == "year";
    }
    ReadTwo(Unit(y, "year"), ys, py);
    ParseNatToString(y);
  }

  /** A text of two words, the first all digits, reads back by the second word's start. */
  lemma ReadTwo(text: string, a: string, b: string)
    requires Split(text, " ") == [a, b] && AllDigits(a)
    ensures StartsWith(b, "year") ==> ReadDuration(text) == Some(Span(ParseDigits(a), 0))
    ensures !StartsWith(b, "year") ==> ReadDuration(text) == Some(Span(0, ParseDigits(a)))
  {
  }

  /** A number and a unit that does not start with "year" read back as months. */
  lemma ReadMonthUnit(m: nat, unit: string)
    requires ' ' !in unit && |unit| > 0 && unit[0] == 'm'
    ensures ReadDuration(NatToString(m) + " " + unit) == Some(Span(0, m))
  {
    var ms := NatToString(m);
    TwoWords(ms, unit);
    assert !StartsWith(unit, "year") by {
      assert unit[0] != "year"[0];
    }
    ReadTwo(ms + " " + unit, ms, unit);
    ParseNatToString(m);
  }

  lemma ReadMonths(m: nat)
    ensures ReadDuration(NatToString(m) + " " + Plural("month", m)) == Some(Span(0, m))
  {
    assert Plural("month", m)[0] == 'm';
    ReadMonthUnit(m, Plural("month", m));
  }

  lemma ReadZero(text: string)
    requires text == "0 months"
    ensures ReadDuration(text) == Some(Span(0, 0))
  {
    var zero, unit := NatToString(0), "months";
    assert zero == "0";
    assert text == zero + " " + unit;
    ReadMonthUnit(0, unit);
  }

  /**
   * The duration text of whole years and months in 0..11 reads back to
   * the same span: nothing is lost in the printing.
   */
  lemma ReadDurationText(s: Span)
    requires s.years >= 0 && 0 <= s.months < 12
    ensures ReadDuration(DurationText(s)) == Some(s)
  {
    var y, m := s.years, s.months;
    var t := DurationText(s);
    if y > 0 && m > 0 {
      assert t == Unit(y, "year") + " " + Unit(m, "month");
      ReadYearsAndMonths(y, m);
    } else if y > 0 {
      assert t == Unit(y, "year");
      ReadYears(y);
    } else if m > 0 {
      UnitIsTwoWords(m, "month");
      assert t == NatToString(m) + " " + Plural("month", m);
      ReadMonths(m);
    } else {
      ReadZero(t);
    }
  }

  /** Two spans of whole years and months in 0..11 that print the same are the same span. */
  lemma DurationTextInjective(a: Span, b: Span)
    requires a.years >= 0 && 0 <= a.months < 12
    requires b.years >= 0 && 0 <= b.months < 12
    requires DurationText(a) == DurationText(b)
    ensures a == b
  {
    ReadDurationText(a);
    ReadDurationText(b);
  }

  /** Two ordered pairs of dates get the same text exactly when they are the same number of months apart. */
  lemma DurationDeterminesMonths(s1: CalendarDate, e1: CalendarDate, s2: CalendarDate, e2: CalendarDate)
    requires !Later(s1, e1) && !Later(s2, e2)
    ensures GetDuration(s1, e1) == GetDuration(s2, e2) <==>
      (e1.year * 12 + e1.month0) - (s1.year * 12 + s1.month0) == (e2.year * 12 + e2.month0) - (s2.year * 12 + s2.month0)
  {
    var a, b := MonthSpan(s1, e1), MonthSpan(s2, e2);
    if GetDuration(s1, e1) == GetDuration(s2, e2) {
      DurationTextInjective(a, b);
    }
    if a.years * 12 + a.months == b.years * 12 + b.months {
      assert a == b;
    }
  }
}
