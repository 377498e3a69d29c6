/** The date-time-group (DTG) parser and the task-id format of js/utils.js.
    A DTG is `DDHHMMZMMMYY` (day, hour, minute, the letter Z, a three-letter
    month, a two-digit year in 20YY), read from free text and converted to a
    UTC instant in milliseconds; impossible dates are refused by building the
    instant with `Date.UTC` and checking that its day and month read back. */
module Utils {
  import opened Common
  import opened Calendar

  /** MONTH_MAP: the twelve month abbreviations and their month numbers. */
  const MONTH_MAP: map<string, int> := map[
    "JAN" := 1, "FEB" := 2, "MAR" := 3, "APR" := 4, "MAY" := 5, "JUN" := 6,
    "JUL" := 7, "AUG" := 8, "SEP" := 9, "OCT" := 10, "NOV" := 11, "DEC" := 12]

  /** The four groups captured by `/^(\d{2})(\d{4})Z([A-Z]{3})(\d{2})$/`. */
  datatype DtgMatch = DtgMatch(day: string, time: string, monthAbbr: string, year: string)

  predicate IsUpperLetter(c: char)
  {
    'A' <= c <= 'Z'
  }

  /** The anchored pattern `/^(\d{2})(\d{4})Z([A-Z]{3})(\d{2})$/`: it
      matches exactly the twelve-character texts of that shape, and its
      groups are the slices at those positions. */
  function MatchDtg(c: string): (m: Option<DtgMatch>)
    ensures m.Some? <==>
      && |c| == 12 && AllDigits(c[..6]) && c[6] == 'Z'
      && (forall i :: 7 <= i < 10 ==> IsUpperLetter(c[i])) && AllDigits(c[10..])
    ensures m.Some? ==> m.value == DtgMatch(c[..2], c[2..6], c[7..10], c[10..])
    ensures m.Some? ==> |m.value.day| == 2 && |m.value.time| == 4 && |m.value.year| == 2
    ensures m.Some? ==> AllDigits(m.value.day) && AllDigits(m.value.time) && AllDigits(m.value.year)
    ensures m.Some? ==> c == m.value.day + m.value.time + "Z" + m.value.monthAbbr + m.value.year
  {
    if |c| == 12 && AllDigits(c[..6]) && c[6] == 'Z'
       && IsUpperLetter(c[7]) && IsUpperLetter(c[8]) && IsUpperLetter(c[9])
       && AllDigits(c[10..])
    then Some(DtgMatch(c[..2], c[2..6], c[7..10], c[10..]))
    else None
  }

  /** The text the pattern is matched against: trimmed, upper-cased, every
      white-space character removed. */
  function CleanDtg(s: string): string
  {
    RemoveWhitespace(ToUpper(Trim(s)))
  }

  /** The cleaned text is no longer than the input and holds no white space
      and no lower-case ASCII letter. */
  lemma CleanDtgForm(s: string)
    ensures |CleanDtg(s)| <= |s|
    ensures forall i :: 0 <= i < |CleanDtg(s)| ==> !IsWhitespace(CleanDtg(s)[i]) && !('a' <= CleanDtg(s)[i] <= 'z')
  {
    var u := ToUpper(Trim(s));
    forall i | 0 <= i < |RemoveWhitespace(u)|
      ensures !('a' <= RemoveWhitespace(u)[i] <= 'z')
    {
      var c := RemoveWhitespace(u)[i];
      assert c in u;
    }
  }

  /** The numbers a well-formed DTG names, before any calendar check. */
  datatype DtgFields = DtgFields(day: nat, hour: nat, minute: nat, month: int, fullYear: int)

  /** The fields of a cleaned DTG text: None unless the pattern matches and
      the month token is a key of MONTH_MAP; otherwise day, hour and minute
      are the two-digit numbers written, the month is MONTH_MAP's number and
      the year is 2000 plus the two digits written. */
  function FieldsOfText(c: string): (f: Option<DtgFields>)
    ensures f.Some? <==> MatchDtg(c).Some? && MatchDtg(c).value.monthAbbr in MONTH_MAP
    ensures f.Some? ==>
      var m := MatchDtg(c).value;
      && f.value.day == DigitsValue(m.day)
      && f.value.hour == DigitsValue(m.time[..2]) && f.value.minute == DigitsValue(m.time[2..])
      && f.value.month == MONTH_MAP[m.monthAbbr] && f.value.fullYear == 2000 + DigitsValue(m.year)
    ensures f.Some? ==> f.value.day < 100 && f.value.hour < 100 && f.value.minute < 100
    ensures f.Some? ==> 1 <= f.value.month <= 12 && 2000 <= f.value.fullYear < 2100
  {
    match MatchDtg(c)
    case None => None
    case Some(m) =>
      if m.monthAbbr !in MONTH_MAP then None
      else
        var month := MONTH_MAP[m.monthAbbr];
        assert 1 <= month <= 12;
        TwoDigitsValue(m.day);
        TwoDigitsValue(m.time[..2]);
        TwoDigitsValue(m.time[2..]);
        TwoDigitsValue(m.year);
        Some(DtgFields(DigitsValue(m.day), DigitsValue(m.time[..2]), DigitsValue(m.time[2..]),
                       month, 2000 + DigitsValue(m.year)))
  }

  /** The checks of validateAndConvertDTG before the calendar: an empty
      input is refused; otherwise the fields are those FieldsOfText reads
      from the cleaned text. */
  function DtgFieldsOf(s: string): (f: Option<DtgFields>)
    ensures s == "" ==> f.None?
    ensures s != "" ==> f == FieldsOfText(CleanDtg(s))
    ensures f.Some? ==> f.value.day < 100 && f.value.hour < 100 && f.value.minute < 100
    ensures f.Some? ==> 1 <= f.value.month <= 12 && 2000 <= f.value.fullYear < 2100
  {
    if s == "" then None else FieldsOfText(CleanDtg(s))
  }

  /** validateAndConvertDTG: the UTC instant (ms since the epoch) a DTG names,
      or None. The instant is built with Date.UTC, which carries an hour or
      minute overflow into later days; the date is refused unless its UTC
      date and month read back as the ones written. */
  function ValidateAndConvertDtg(s: string): (r: Option<int>)
    ensures r.Some? ==> DtgFieldsOf(s).Some?
  {
    match DtgFieldsOf(s)
    case None => None
    case Some(f) => InstantOf(f)
  }

  /** The input rules: an empty input is refused, and only the cleaned text
      counts, so case and white space anywhere do not matter (the fields
      read are the same, hence so is the instant). */
  lemma DtgInputForms(s: string, t: string)
    ensures ValidateAndConvertDtg("") == None
    ensures s != "" && t != "" && CleanDtg(s) == CleanDtg(t) ==> ValidateAndConvertDtg(s) == ValidateAndConvertDtg(t)
  {
  }

  /** Text that does not fit the pattern, or names no month of MONTH_MAP,
      is refused. */
  lemma DtgFieldRules(s: string)
    ensures MatchDtg(CleanDtg(s)).None? ==> ValidateAndConvertDtg(s) == None
    ensures MatchDtg(CleanDtg(s)).Some? && MatchDtg(CleanDtg(s)).value.monthAbbr !in MONTH_MAP
            ==> ValidateAndConvertDtg(s) == None
  {
  }

  /** The calendar step of validateAndConvertDTG: Date.UTC of the fields, refused
      unless its UTC date and month read back as the ones written. */
  function InstantOf(f: DtgFields): (r: Option<int>)
    ensures r.Some? ==> DateFromTime(r.value) == f.day && MonthFromTime(r.value) == f.month - 1
  {
    var date := DateUtc(f.fullYear, f.month - 1, f.day, f.hour, f.minute, 0);
    if DateFromTime(date) != f.day || MonthFromTime(date) != f.month - 1 then None
    else Some(date)
  }

  /** The read-back check accepts exactly the real dates with a time inside
      that day, and yields their Date.UTC instant. */
  lemma InstantOfValid(f: DtgFields)
    requires 1 <= f.month <= 12 && f.day < 100 && f.hour < 100 && f.minute < 100
    ensures InstantOf(f).Some? <==> ValidDayTime(f)
    ensures InstantOf(f).Some? ==> InstantOf(f).value == DateUtc(f.fullYear, f.month - 1, f.day, f.hour, f.minute, 0)
  {
    CrossCheck(f.fullYear, f.month - 1, f.day, f.hour, f.minute);
  }

  /** A day that exists in the month, and a time (hour * 60 + minute
      minutes) that does not run into the next day. */
  predicate ValidDayTime(f: DtgFields)
    requires 1 <= f.month <= 12
  {
    1 <= f.day <= DaysInMonth(f.fullYear, f.month - 1) && f.hour * 60 + f.minute < 1440
  }

  /** What validateAndConvertDTG accepts, and what it returns: exactly the
      well-formed DTGs naming a real date and a time within that day, each
      converted to the instant whose UTC year, month, date, hour and minute
      are the ones written (minutes past 59 rolling into the hour). */
  lemma {:induction false} DtgAcceptance(s: string)
    ensures ValidateAndConvertDtg(s).Some?
      <==> DtgFieldsOf(s).Some? && ValidDayTime(DtgFieldsOf(s).value)
    ensures ValidateAndConvertDtg(s).Some? ==>
      var f, t := DtgFieldsOf(s).value, ValidateAndConvertDtg(s).value;
      && t == DateUtc(f.fullYear, f.month - 1, f.day, f.hour, f.minute, 0)
      && YearFromTime(t) == f.fullYear && MonthFromTime(t) == f.month - 1
      && DateFromTime(t) == f.day
      && HourFromTime(t) == (f.hour * 60 + f.minute) / 60
      && MinFromTime(t) == (f.hour * 60 + f.minute) % 60
  {
    if DtgFieldsOf(s).Some? {
      var f := DtgFieldsOf(s).value;
      assert ValidateAndConvertDtg(s) == InstantOf(f);
      InstantOfValid(f);
      if ValidDayTime(f) {
        InstantOfReadBack(f);
      }
    }
  }

  /** The accepted instant reads back as the fields written. */
  lemma InstantOfReadBack(f: DtgFields)
    requires 1 <= f.month <= 12 && f.day < 100 && f.hour < 100 && f.minute < 100 && ValidDayTime(f)
    ensures InstantOf(f).Some?
    ensures var t := InstantOf(f).value;
      && t == DateUtc(f.fullYear, f.month - 1, f.day, f.hour, f.minute, 0)
      && YearFromTime(t) == f.fullYear && MonthFromTime(t) == f.month - 1
      && DateFromTime(t) == f.day
      && HourFromTime(t) == (f.hour * 60 + f.minute) / 60
      && MinFromTime(t) == (f.hour * 60 + f.minute) % 60
  {
    InstantOfValid(f);
    InstantDate(f.fullYear, f.month - 1, f.day, f.hour, f.minute);
    InstantClock(f.fullYear, f.month - 1, f.day, f.hour, f.minute);
  }

  /** 101330Z DEC 25 is 2025-12-10T13:30:00Z. */
  lemma DtgExampleValid()
    ensures InstantOf(DtgFields(10, 13, 30, 12, 2025)) == Some(1765373400000)
  {
    InstantOfValid(DtgFields(10, 13, 30, 12, 2025));
    ExampleInstant();
  }

  /** The pattern splits 101330ZDEC25 into 10, 1330, DEC and 25. */
  lemma DtgMatchExample()
    ensures MatchDtg("101330ZDEC25") == Some(DtgMatch("10", "1330", "DEC", "25"))
  {
    var c := "101330ZDEC25";
    assert c[..2] == "10" && c[2..6] == "1330" && c[7..10] == "DEC" && c[10..] == "25";
    assert AllDigits(c[..6]) by {
      assert c[..6] == "101330";
    }
    assert AllDigits(c[10..]);
    assert c[6] == 'Z' && IsUpperLetter(c[7]) && IsUpperLetter(c[8]) && IsUpperLetter(c[9]);
  }

  /** The text 101330ZDEC25 names those fields. */
  lemma DtgTextExample()
    ensures FieldsOfText("101330ZDEC25") == Some(DtgFields(10, 13, 30, 12, 2025))
  {
    DtgMatchExample();
    var t := "1330";
    assert t[..2] == "13" && t[2..] == "30";
    assert DigitsValue("10") == 10 by { TwoDigitsValue("10"); }
    assert DigitsValue("13") == 13 by { TwoDigitsValue("13"); }
    assert DigitsValue("30") == 30 by { TwoDigitsValue("30"); }
    assert DigitsValue("25") == 25 by { TwoDigitsValue("25"); }
    assert MONTH_MAP["DEC"] == 12;
  }

  /** The cleaned text 101330ZDEC25 is accepted as 2025-12-10T13:30:00Z. */
  lemma DtgTextAcceptedExample()
    ensures FieldsOfText("101330ZDEC25").Some?
    ensures InstantOf(FieldsOfText("101330ZDEC25").value) == Some(1765373400000)
  {
    DtgTextExample();
    DtgExampleValid();
  }

  /** 31 April is refused. */
  lemma DtgExampleApril31()
    ensures InstantOf(DtgFields(31, 12, 0, 4, 2025)) == None
  {
    InstantOfValid(DtgFields(31, 12, 0, 4, 2025));
  }

  /** 2400: an hour of 24 runs into the next day and is refused. */
  lemma DtgExampleHour24()
    ensures InstantOf(DtgFields(10, 24, 0, 12, 2025)) == None
  {
    InstantOfValid(DtgFields(10, 24, 0, 12, 2025));
  }

  /** 0099: 99 minutes are carried into the hour (01:39) and accepted. */
  lemma DtgExampleMinute99()
    ensures InstantOf(DtgFields(10, 0, 99, 12, 2025)).Some?
  {
    InstantOfValid(DtgFields(10, 0, 99, 12, 2025));
  }

  // ---------------------------------------------------------------------------
  // Task ids

  /** The id getNextTaskId issues for counter value n: "MI-" and the counter,
      left-padded with zeros to at least three digits. */
  function TaskIdFor(n: nat): (id: string)
    ensures |id| >= 6 && id[..3] == "MI-" && AllDigits(id[3..])
    ensures |id| == 3 + (if |Decimal(n)| < 3 then 3 else |Decimal(n)|)
    ensures id[|id| - |Decimal(n)|..] == Decimal(n)
    ensures forall i :: 3 <= i < |id| - |Decimal(n)| ==> id[i] == '0'
  {
    var id := "MI-" + PadStartZeros(Decimal(n), 3);
    assert id[3..] == PadStartZeros(Decimal(n), 3);
    id
  }

  /** The counter value an id of that form carries. */
  function ParseTaskId(id: string): Option<nat>
  {
    if |id| > 3 && id[..3] == "MI-" && AllDigits(id[3..]) then Some(DigitsValue(id[3..])) else None
  }

  /** Round trip: the counter can be read back from the id it produced. */
  lemma {:induction false} TaskIdRoundTrip(n: nat)
    ensures ParseTaskId(TaskIdFor(n)) == Some(n)
  {
    var digits := Decimal(n);
    var id := TaskIdFor(n);
    assert id[3..] == PadStartZeros(digits, 3);
    DecimalValue(n);
    if |digits| < 3 {
      LeadingZerosValue(3 - |digits|, digits);
    }
  }

  /** Distinct counter values give distinct ids. */
  lemma TaskIdsDistinct(a: nat, b: nat)
    requires a != b
    ensures TaskIdFor(a) != TaskIdFor(b)
  {
    TaskIdRoundTrip(a);
    TaskIdRoundTrip(b);
  }

  lemma TaskIdExamples()
    ensures TaskIdFor(5) == "MI-005" && TaskIdFor(42) == "MI-042" && TaskIdFor(1234) == "MI-1234"
  {
    TaskIdExample5();
    TaskIdExample42();
    TaskIdExample1234();
  }

  lemma TaskIdExample5()
    ensures TaskIdFor(5) == "MI-005"
  {
  }

  lemma TaskIdExample42()
    ensures TaskIdFor(42) == "MI-042"
  {
  }

  lemma TaskIdExample1234()
    ensures TaskIdFor(1234) == "MI-1234"
  {
  }
}
