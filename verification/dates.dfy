/** Calendar dates as Python's `datetime.date` holds them (years 1 to 9999,
    proleptic Gregorian calendar), their ISO `YYYY-MM-DD` text form, and the
    date helpers of the package: validity checks, the current year-month
    label and the last day of the previous month. The clock is a parameter. */
module Dates {
  import opened Wrappers
  import opened Text

  datatype Date = Date(year: int, month: int, day: int)

  predicate IsLeap(y: int) {
    y % 4 == 0 && (y % 100 != 0 || y % 400 == 0)
  }

  function DaysInMonth(y: int, m: int): (n: int)
    requires 1 <= m <= 12
    ensures 28 <= n <= 31
  {
    if m == 2 then (if IsLeap(y) then 29 else 28)
    else if m == 4 || m == 6 || m == 9 || m == 11 then 30
    else 31
  }

  /** The dates `datetime.date` can represent (section 5.7 of RFC 3339 gives
      the same day-of-month limits). */
  predicate ValidDate(d: Date) {
    && 1 <= d.year <= 9999
    && 1 <= d.month <= 12
    && 1 <= d.day <= DaysInMonth(d.year, d.month)
  }

  /** Strict chronological order. */
  predicate Before(a: Date, b: Date) {
    a.year < b.year
    || (a.year == b.year && a.month < b.month)
    || (a.year == b.year && a.month == b.month && a.day < b.day)
  }

  // ---------------------------------------------------------------------------
  // The ISO text form

  /** `date.isoformat()`: `YYYY-MM-DD`, zero-padded. */
  function FormatDate(d: Date): (s: string)
    requires ValidDate(d)
    ensures |s| == 10 && s[4] == '-' && s[7] == '-'
    ensures AllDigits(s[..4]) && AllDigits(s[5..7]) && AllDigits(s[8..])
  {
    var y := PadNat(d.year, 4);
    var m := PadNat(d.month, 2);
    var dd := PadNat(d.day, 2);
    WidthOfSmall(d.year, 4);
    WidthOfSmall(d.month, 2);
    WidthOfSmall(d.day, 2);
    var s := y + "-" + m + "-" + dd;
    assert s[..4] == y && s[5..7] == m && s[8..] == dd;
    s
  }

  /** A number below 10^w pads to exactly `w` digits. */
  lemma WidthOfSmall(n: nat, w: nat)
    requires w >= 1 && n < Pow10(w)
    ensures |PadNat(n, w)| == w
  {
    var s := NatToString(n);
    if |s| < w {
      ZeroPaddedLength(s, w);
    } else if |s| > w {
      TopDigitBound(s);
      Pow10Mono(w, |s| - 1);
      assert false;
    }
  }

  lemma ZeroPaddedLength(s: string, w: nat)
    requires AllDigits(s) && |s| < w
    ensures |ZeroPadded(s, w)| == w
    decreases w - |s|
  {
    LeadingZeroValue(s);
    if |"0" + s| < w {
      ZeroPaddedLength("0" + s, w);
    }
  }

  lemma Pow10Mono(a: nat, b: nat)
    requires a <= b
    ensures Pow10(a) <= Pow10(b)
    decreases b - a
  {
    if a < b {
      Pow10Mono(a, b - 1);
    }
  }

  /** A digit string without a leading zero denotes at least 10^(length-1). */
  lemma {:induction false} TopDigitBound(s: string)
    requires AllDigits(s) && |s| >= 1 && s[0] != '0'
    ensures DigitsValue(s) >= Pow10(|s| - 1)
    decreases |s|
  {
    if |s| > 1 {
      var init := s[..|s| - 1];
      assert init[0] == s[0];
      TopDigitBound(init);
    }
  }

  /** `date.fromisoformat` for the extended calendar form `YYYY-MM-DD` with
      ASCII digits; anything else, or a day the calendar does not have, is
      rejected. */
  function ParseDate(s: string): (r: Option<Date>)
    ensures r.Some? ==> ValidDate(r.value)
  {
    if |s| != 10 || s[4] != '-' || s[7] != '-' then None
    else if !(AllDigits(s[..4]) && AllDigits(s[5..7]) && AllDigits(s[8..])) then None
    else
      var d := Date(DigitsValue(s[..4]), DigitsValue(s[5..7]), DigitsValue(s[8..]));
      if ValidDate(d) then Some(d) else None
  }

  /** The three fields of a valid date's text form, each padded to its width. */
  lemma FormatFields(d: Date)
    requires ValidDate(d)
    ensures var t := FormatDate(d);
            t[..4] == PadNat(d.year, 4) && t[5..7] == PadNat(d.month, 2) && t[8..] == PadNat(d.day, 2)
  {
    WidthOfSmall(d.year, 4);
    WidthOfSmall(d.month, 2);
    WidthOfSmall(d.day, 2);
  }

  /** Every representable date survives a trip through its text form. */
  lemma ParseFormat(d: Date)
    requires ValidDate(d)
    ensures ParseDate(FormatDate(d)) == Some(d)
  {
    var s := FormatDate(d);
    FormatFields(d);
    assert DigitsValue(s[..4]) == d.year;
    assert DigitsValue(s[5..7]) == d.month;
    assert DigitsValue(s[8..]) == d.day;
  }

  /** A digit field of width `w` is the padded text of its own value. */
  lemma FieldRoundTrip(part: string, w: nat)
    requires w >= 1 && AllDigits(part) && |part| == w
    ensures PadNat(DigitsValue(part), w) == part
  {
    DigitsBound(part);
    WidthOfSmall(DigitsValue(part), w);
    DigitsInjective(PadNat(DigitsValue(part), w), part);
  }

  /** The text form is canonical: a string that parses is the text form of
      the date it parses to. */
  lemma FormatParse(s: string)
    requires ParseDate(s).Some?
    ensures FormatDate(ParseDate(s).value) == s
  {
    var d := ParseDate(s).value;
    var t := FormatDate(d);
    FormatFields(d);
    FieldRoundTrip(s[..4], 4);
    FieldRoundTrip(s[5..7], 2);
    FieldRoundTrip(s[8..], 2);
    SameDateText(s, t);
  }

  /** Two ten-character date texts with the same dashes and the same three
      fields are equal. */
  lemma SameDateText(s: string, t: string)
    requires |s| == 10 && |t| == 10 && s[4] == t[4] && s[7] == t[7]
    requires t[..4] == s[..4] && t[5..7] == s[5..7] && t[8..] == s[8..]
    ensures s == t
  {
    forall k | 0 <= k < 10 ensures s[k] == t[k] {
      if k < 4 {
        assert s[k] == s[..4][k];
      } else if 5 <= k < 7 {
        assert s[k] == s[5..7][k - 5];
      } else if 8 <= k {
        assert s[k] == s[8..][k - 8];
      }
    }
  }

  // ---------------------------------------------------------------------------
  // Validity checks

  /** `check_valid_date`: true iff `date.fromisoformat` accepts the string. */
  function CheckValidDate(s: string): (ok: bool)
    ensures ok <==> exists d :: ValidDate(d) && FormatDate(d) == s
  {
    ParsesIffFormatted(s);
    ParseDate(s).Some?
  }

  lemma ParsesIffFormatted(s: string)
    ensures ParseDate(s).Some? <==> exists d :: ValidDate(d) && FormatDate(d) == s
  {
    if ParseDate(s).Some? {
      FormatParse(s);
    }
    if exists d :: ValidDate(d) && FormatDate(d) == s {
      var d :| ValidDate(d) && FormatDate(d) == s;
      ParseFormat(d);
    }
  }

  /** The argument of `check_valid_date_list`: a bare string or a list. */
  datatype DateArg = OneDate(date: string) | DateList(dates: seq<string>)

  /** `check_valid_date_list`: a bare string is a one-element list; true iff
      every element is a valid date (so true for the empty list). */
  function CheckValidDateList(arg: DateArg): (ok: bool)
    ensures arg.OneDate? ==> (ok <==> CheckValidDate(arg.date))
    ensures arg.DateList? ==> (ok <==> forall k :: 0 <= k < |arg.dates| ==> CheckValidDate(arg.dates[k]))
  {
    match arg
    case OneDate(s) => assert [s][0] == s; AllValid([s])
    case DateList(ds) => AllValid(ds)
  }

  /** `all(map(check_valid_date, dates))`. */
  predicate AllValid(ds: seq<string>) {
    forall k :: 0 <= k < |ds| ==> CheckValidDate(ds[k])
  }

  // ---------------------------------------------------------------------------
  // Clock-derived labels

  /** `current_year_month`: `str(year) + "-" + str(month)`, no zero padding.
      The clock is read twice, once for the year and once for the month, so
      the two readings are separate parameters; across midnight of 31
      December they belong to different years. */
  function CurrentYearMonth(yearRead: Date, monthRead: Date): (s: string)
    requires ValidDate(yearRead) && ValidDate(monthRead)
  {
    NatToString(yearRead.year) + "-" + NatToString(monthRead.month)
  }

  /** Reads a `year-month` label back: two non-empty digit runs around one
      dash. */
  function ParseYearMonth(s: string): (r: Option<(nat, nat)>)
  {
    var parts := Split(s, '-');
    if |parts| == 2 && |parts[0]| > 0 && |parts[1]| > 0 && AllDigits(parts[0]) && AllDigits(parts[1])
    then Some((DigitsValue(parts[0]), DigitsValue(parts[1])))
    else None
  }

  /** The label gives back the year of the first reading and the month of the
      second, and one-digit months are written with one digit. */
  lemma CurrentYearMonthDecodes(yearRead: Date, monthRead: Date)
    requires ValidDate(yearRead) && ValidDate(monthRead)
    ensures ParseYearMonth(CurrentYearMonth(yearRead, monthRead))
              == Some((yearRead.year as nat, monthRead.month as nat))
    ensures monthRead.month < 10 ==>
              |CurrentYearMonth(yearRead, monthRead)| == |NatToString(yearRead.year)| + 2
  {
    var y := NatToString(yearRead.year);
    var m := NatToString(monthRead.month);
    NoDash(y);
    NoDash(m);
    SplitJoinTwo(y, m, '-');
  }

  /** Read across midnight of 31 December, the label pairs the old year with
      the new month, which is neither reading's own year-month. */
  lemma CurrentYearMonthAtNewYear(d: Date)
    requires ValidDate(d) && d.month == 12 && d.day == 31 && d.year < 9999
    ensures ValidDate(NextDay(d))
    ensures ParseYearMonth(CurrentYearMonth(d, NextDay(d))) == Some((d.year as nat, 1))
    ensures Some((d.year as nat, 1)) != Some((d.year as nat, d.month as nat))
    ensures Some((d.year as nat, 1)) != Some((NextDay(d).year as nat, NextDay(d).month as nat))
  {
    CurrentYearMonthDecodes(d, NextDay(d));
  }

  lemma NoDash(s: string)
    requires AllDigits(s)
    ensures '-' !in s
  {
  }

  // ---------------------------------------------------------------------------
  // Day arithmetic

  /** The day after `d`. */
  function NextDay(d: Date): Date
    requires 1 <= d.month <= 12
  {
    if d.day < DaysInMonth(d.year, d.month) then d.(day := d.day + 1)
    else if d.month < 12 then Date(d.year, d.month + 1, 1)
    else Date(d.year + 1, 1, 1)
  }

  /** `d - timedelta(days=1)`: OverflowError below the first representable
      date. */
  function PrevDay(d: Date): (r: Result<Date>)
    requires ValidDate(d)
    ensures r.Ok? <==> d != Date(1, 1, 1)
    ensures r.Err? ==> r.error.OverflowError?
    ensures r.Ok? ==> ValidDate(r.value) && Before(r.value, d)
  {
    if d.day > 1 then Ok(d.(day := d.day - 1))
    else if d.month > 1 then Ok(Date(d.year, d.month - 1, DaysInMonth(d.year, d.month - 1)))
    else if d.year > 1 then Ok(Date(d.year - 1, 12, 31))
    else Err(OverflowError("date value out of range"))
  }

  /** Stepping back a day and forward again returns to the same day. */
  lemma NextPrevDay(d: Date)
    requires ValidDate(d) && PrevDay(d).Ok?
    ensures NextDay(PrevDay(d).value) == d
  {
  }

  /** Stepping forward a day and back again returns to the same day. */
  lemma PrevNextDay(d: Date)
    requires ValidDate(d) && d != Date(9999, 12, 31)
    ensures ValidDate(NextDay(d)) && PrevDay(NextDay(d)) == Ok(d)
  {
  }

  /** `prev_month_last_date(today)`: the first of today's month minus one day. */
  function PrevMonthLastDate(today: Date): (r: Result<Date>)
    requires ValidDate(today)
    ensures r.Err? <==> today.year == 1 && today.month == 1
    ensures r.Ok? ==> && ValidDate(r.value) && Before(r.value, today)
                      && r.value.day == DaysInMonth(r.value.year, r.value.month)
                      && NextDay(r.value) == today.(day := 1)
    ensures r.Ok? && today.month == 1 ==> r.value == Date(today.year - 1, 12, 31)
    ensures r.Ok? && today.month > 1 ==> r.value.year == today.year && r.value.month == today.month - 1
  {
    var first := today.(day := 1);
    var r := PrevDay(first);
    if r.Ok? then NextPrevDay(first); r else r
  }
}
