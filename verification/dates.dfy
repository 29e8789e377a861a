/** Calendar dates as the import pipeline reads and writes them: the
    leading `YYYY[/-]M[/-]D` prefix `convert_date` extracts, the range of
    dates a pandas timestamp can hold, and the `%Y-%m-%d` rendering the
    processors store. */
module Dates {
  import opened Common
  import opened UnicodeCleaner

  datatype Date = Date(year: nat, month: nat, day: nat)

  predicate LeapYear(y: nat) {
    y % 4 == 0 && (y % 100 != 0 || y % 400 == 0)
  }

  function DaysInMonth(y: nat, m: nat): nat
    requires 1 <= m <= 12
  {
    if m == 2 then (if LeapYear(y) then 29 else 28)
    else if m == 4 || m == 6 || m == 9 || m == 11 then 30
    else 31
  }

  /** A day of the proleptic Gregorian calendar. */
  predicate ValidDate(d: Date) {
    1 <= d.month <= 12 && 1 <= d.day <= DaysInMonth(d.year, d.month)
  }

  predicate Before(a: Date, b: Date) {
    a.year < b.year
    || (a.year == b.year && (a.month < b.month || (a.month == b.month && a.day <= b.day)))
  }

  /** A nanosecond timestamp spans 1677-09-21 00:12:43 to 2262-04-11
      23:47:16, so midnight of 1677-09-21 is already out of range. */
  const FirstDay: Date := Date(1677, 9, 22)
  const LastDay: Date := Date(2262, 4, 11)

  /** A date `pd.to_datetime` accepts: a real calendar day within the
      timestamp range. */
  predicate Representable(d: Date) {
    ValidDate(d) && Before(FirstDay, d) && Before(d, LastDay)
  }

  predicate IsSep(c: char) {
    c == '/' || c == '-'
  }

  // ---------------------------------------------------------------------------
  // re.match(r"(\d{4}[/-]\d{1,2}[/-]\d{1,2})", text)

  /** Length of the month field when it is followed by a separator: two
      digits are tried first, then one. */
  function MonthLength(t: string): nat {
    if |t| >= 3 && IsDigit(t[0]) && IsDigit(t[1]) && IsSep(t[2]) then 2
    else if |t| >= 2 && IsDigit(t[0]) && IsSep(t[1]) then 1
    else 0
  }

  /** Length of the (greedy) day field. */
  function DayLength(t: string): nat {
    if |t| >= 2 && IsDigit(t[0]) && IsDigit(t[1]) then 2
    else if |t| >= 1 && IsDigit(t[0]) then 1
    else 0
  }

  /** The year, month and day the prefix pattern captures, before any
      calendar check. */
  function DatePrefix(s: string): (r: Option<Date>)
    ensures r.Some? ==> |s| >= 8 && AllDigits(s[..4]) && IsSep(s[4])
  {
    if |s| < 8 || !AllDigits(s[..4]) || !IsSep(s[4]) then None
    else
      var t := s[5..];
      var m := MonthLength(t);
      if m == 0 then None
      else
        var u := t[m + 1..];
        var d := DayLength(u);
        if d == 0 then None
        else Some(Date(DigitsValue(s[..4]), DigitsValue(t[..m]), DigitsValue(u[..d])))
  }

  /** `convert_date`: a missing value is NaT; otherwise the sanitised text's
      date prefix wins when it names a representable day, and any time part
      is ignored.  Everything the source tries after the prefix, its fixed
      formats and then pandas' own parser, is folded into the
      `generic` parameter, which sees the same cleaned text. */
  function ConvertDate(c: Cell, generic: string -> Option<Date>): (r: Option<Date>)
    ensures c.Null? ==> r.None?
    ensures r.Some? ==> Representable(r.value)
    ensures c.Str? && DatePrefix(CleanText(c)).Some? && Representable(DatePrefix(CleanText(c)).value)
      ==> r == DatePrefix(CleanText(c))
  {
    match c
    case Null => None
    case Str(_) =>
      var text := CleanText(c);
      var p := DatePrefix(text);
      if p.Some? && Representable(p.value) then p
      else
        var g := generic(text);
        if g.Some? && Representable(g.value) then g else None
  }

  // ---------------------------------------------------------------------------
  // .dt.strftime("%Y-%m-%d")

  function RenderDate(d: Date): string {
    PadNat(d.year, 4) + "-" + PadNat(d.month, 2) + "-" + PadNat(d.day, 2)
  }

  /** The stored form of a converted cell: the rendered day, or a missing
      cell for NaT. */
  function DateCell(c: Cell, generic: string -> Option<Date>): (r: Cell)
    ensures r.Str? ==> exists d :: Representable(d) && r.s == RenderDate(d)
    ensures c.Null? ==> r.Null?
  {
    match ConvertDate(c, generic)
    case Some(d) => Str(RenderDate(d))
    case None => Null
  }

  /** Where the three fields of `y-m-d` followed by `rest` sit. */
  lemma Fields(y: string, m: string, dd: string, rest: string)
    requires |y| == 4 && |m| == 2 && |dd| == 2
    ensures var s := y + "-" + m + "-" + dd + rest;
      |s| == 10 + |rest| && s[..4] == y && s[4] == '-' && s[5..7] == m && s[7] == '-'
      && s[8..10] == dd && s[5..] == m + "-" + dd + rest && s[8..] == dd + rest
  {
  }

  /** Rendering and then reading the prefix gives the day back, whatever
      follows it. */
  lemma PrefixOfRendered(d: Date, rest: string)
    requires Fits(d)
    ensures DatePrefix(RenderDate(d) + rest) == Some(d)
  {
    FieldWidths(d);
    PadNatValue(d.year, 4);
    PadNatValue(d.month, 2);
    PadNatValue(d.day, 2);
    ReadFields(PadNat(d.year, 4), PadNat(d.month, 2), PadNat(d.day, 2), rest);
  }

  lemma ReadFields(y: string, m: string, dd: string, rest: string)
    requires |y| == 4 && |m| == 2 && |dd| == 2
    requires AllDigits(y) && AllDigits(m) && AllDigits(dd)
    ensures DatePrefix(y + "-" + m + "-" + dd + rest)
      == Some(Date(DigitsValue(y), DigitsValue(m), DigitsValue(dd)))
  {
    var s := y + "-" + m + "-" + dd + rest;
    Fields(y, m, dd, rest);
    var t := s[5..];
    assert t[0] == m[0] && t[1] == m[1] && t[2] == '-';
    assert MonthLength(t) == 2;
    assert t[..2] == m;
    var u := t[3..];
    assert u == dd + rest;
    assert u[0] == dd[0] && u[1] == dd[1];
    assert DayLength(u) == 2;
    assert u[..2] == dd;
  }

  /** A stored day converts back to itself: the rendering survives
      sanitising and its prefix is the day. */
  lemma DateRoundTrip(d: Date, generic: string -> Option<Date>)
    requires Representable(d)
    ensures ConvertDate(Str(RenderDate(d)), generic) == Some(d)
  {
    DayBound(d);
    RenderClean(d);
    PrefixOfRendered(d, "");
    assert RenderDate(d) + "" == RenderDate(d);
  }

  /** Converting an already converted column changes nothing. */
  lemma DateCellIdempotent(c: Cell, generic: string -> Option<Date>)
    ensures DateCell(DateCell(c, generic), generic) == DateCell(c, generic)
  {
    match ConvertDate(c, generic)
    case Some(d) => DateRoundTrip(d, generic);
    case None =>
  }

  lemma RenderClean(d: Date)
    requires Fits(d)
    ensures CleanText(Str(RenderDate(d))) == RenderDate(d)
  {
    FieldWidths(d);
    PlainClean(PadNat(d.year, 4), PadNat(d.month, 2), PadNat(d.day, 2));
  }

  lemma PlainClean(y: string, m: string, dd: string)
    requires |y| == 4 && |m| == 2 && |dd| == 2
    requires AllDigits(y) && AllDigits(m) && AllDigits(dd)
    ensures CleanText(Str(y + "-" + m + "-" + dd)) == y + "-" + m + "-" + dd
  {
    PlainFields(y, m, dd);
    CleanFixpoint(y + "-" + m + "-" + dd);
  }

  /** Digits and dashes are visible and are not whitespace. */
  lemma PlainFields(y: string, m: string, dd: string)
    requires |y| == 4 && |m| == 2 && |dd| == 2
    requires AllDigits(y) && AllDigits(m) && AllDigits(dd)
    ensures Visible(y + "-" + m + "-" + dd) && Trimmed(y + "-" + m + "-" + dd)
  {
    var s := y + "-" + m + "-" + dd;
    Fields(y, m, dd, "");
    assert s + "" == s;
    forall i | 0 <= i < |s| ensures !Removable(s[i]) {
      if i < 4 {
        assert s[i] == y[i];
      } else if 5 <= i < 7 {
        assert s[i] == m[i - 5];
      } else if 8 <= i {
        assert s[i] == dd[i - 8];
      }
    }
    assert s[0] == y[0] && s[9] == dd[1];
  }

  // ---------------------------------------------------------------------------
  // Decimal facts the rendering relies on

  /** The fields of a representable day render to four, two and two digits. */
  lemma FieldWidths(d: Date)
    requires Fits(d)
    ensures |PadNat(d.year, 4)| == 4 && |PadNat(d.month, 2)| == 2 && |PadNat(d.day, 2)| == 2
  {
    YearWidth(d.year);
    TwoDigits(d.month);
    TwoDigits(d.day);
  }

  /** Fields narrow enough for the fixed-width rendering. */
  predicate Fits(d: Date) {
    1000 <= d.year <= 9999 && d.month <= 99 && d.day <= 99
  }

  lemma DayBound(d: Date)
    requires Representable(d)
    ensures Fits(d)
  {
  }

  lemma YearWidth(n: nat)
    requires 1000 <= n <= 9999
    ensures |PadNat(n, 4)| == 4
  {
    assert NatStr(n) == NatStr(n / 10) + [DigitChar(n % 10)];
    assert NatStr(n / 10) == NatStr(n / 100) + [DigitChar(n / 10 % 10)];
    assert NatStr(n / 100) == NatStr(n / 1000) + [DigitChar(n / 100 % 10)];
  }

  lemma TwoDigits(n: nat)
    requires n <= 99
    ensures |PadNat(n, 2)| == 2
  {
    if n >= 10 {
      assert NatStr(n) == NatStr(n / 10) + [DigitChar(n % 10)];
    }
  }

  lemma PadNatValue(n: nat, width: nat)
    ensures DigitsValue(PadNat(n, width)) == n
  {
    NatStrRoundTrip(n);
    var s := NatStr(n);
    if |s| < width {
      LeadingZeros(width - |s|, s);
    }
  }
}
