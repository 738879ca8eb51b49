// The receipt's date line: `formatarDataLocal` turns the form's
// `yyyy-MM-dd` value into the day-first Brazilian form `dd/MM/yyyy` by
// building a local calendar date from its three numeric parts.

module DataLocal {
  import opened Text

  // ---------------------------------------------------------------------
  // `Number(part)`
  // ---------------------------------------------------------------------

  /** `Number(s)` for the strings a date part can be: surrounding
      whitespace is ignored, the empty string is 0, a run of digits (with
      an optional leading '+') is its value, and anything else is NaN
      (`None`). */
  function ToNumber(s: string): (r: Option<nat>)
    ensures AllDigits(s) ==> r == Some(ValueOf(s))
  {
    var t := Trim(s);
    if AllDigits(s) then Some(ValueOf(s))
    else if t == [] then Some(0)
    else if AllDigits(t) then Some(ValueOf(t))
    else if t[0] == '+' && |t| > 1 && AllDigits(t[1..]) then Some(ValueOf(t[1..]))
    else None
  }

  /** `Number()` ignores whitespace around the text: the trimmed part reads
      as the same number, or is NaN as well. */
  lemma NumberTrimmed(s: string)
    ensures ToNumber(Trim(s)) == ToNumber(s)
  {
    var t := Trim(s);
    if AllDigits(s) {
      TrimDigits(s);
    } else {
      TrimIdempotent(s);
      assert ToNumber(t) == ToNumber(Trim(t)) by {
        if AllDigits(t) && t == [] {
          assert ValueOf(t) == 0;
        }
      }
    }
  }



  // ---------------------------------------------------------------------
  // The calendar `new Date(year, monthIndex, day)` works in
  // ---------------------------------------------------------------------

  datatype Date = Date(year: nat, month: nat, day: nat)

  predicate Leap(y: nat)
  {
    y % 4 == 0 && (y % 100 != 0 || y % 400 == 0)
  }

  function DaysInMonth(y: nat, m: nat): (n: nat)
    requires 1 <= m <= 12
    ensures 28 <= n <= 31
  {
    if m == 2 then (if Leap(y) then 29 else 28)
    else if m == 4 || m == 6 || m == 9 || m == 11 then 30
    else 31
  }

  function YearDays(y: nat): nat
  {
    if Leap(y) then 366 else 365
  }

  predicate ValidDate(dt: Date)
  {
    1 <= dt.month <= 12 && 1 <= dt.day <= DaysInMonth(dt.year, dt.month)
  }

  /** A day past the end of its month moves on into the next months, and
      past December into the next year. */
  function Roll(y: nat, m: nat, d: nat): (dt: Date)
    requires 1 <= m <= 12 && d >= 1
    ensures ValidDate(dt)
    decreases d
  {
    var n := DaysInMonth(y, m);
    if d <= n then Date(y, m, d)
    else if m == 12 then Roll(y + 1, 1, d - n)
    else Roll(y, m + 1, d - n)
  }

  /** The Date constructor's year: 0 to 99 stand for 1900 to 1999. */
  function FullYear(ano: nat): nat
  {
    if ano <= 99 then 1900 + ano else ano
  }

  /** `new Date(ano, mes - 1, dia)` for positive parts: months past
      December move on into later years, then days past the end of the
      month into later months. */
  function NewDate(ano: nat, mes: nat, dia: nat): (dt: Date)
    requires mes >= 1 && dia >= 1
    ensures ValidDate(dt)
  {
    Roll(FullYear(ano) + (mes - 1) / 12, (mes - 1) % 12 + 1, dia)
  }

  /** `toLocaleDateString('pt-BR')`: two-digit day and month, then the
      year in as many digits as it needs. */
  function LocaleDate(dt: Date): string
    requires ValidDate(dt)
  {
    Pad2(dt.day) + "/" + Pad2(dt.month) + "/" + Decimal(dt.year)
  }

  // ---------------------------------------------------------------------
  // `formatarDataLocal(dataISO)`
  // ---------------------------------------------------------------------

  /** `ano && mes && dia` after the destructuring: each of the first
      three `-` parts is there (not `undefined`), is a number (not NaN)
      and is not zero. */
  predicate Displayable(dataISO: string)
  {
    var parts := Split(dataISO, '-');
    && |parts| >= 3
    && ToNumber(parts[0]).Some? && ToNumber(parts[0]).value > 0
    && ToNumber(parts[1]).Some? && ToNumber(parts[1]).value > 0
    && ToNumber(parts[2]).Some? && ToNumber(parts[2]).value > 0
  }

  /** The date the three parts name, once `new Date` has normalised it. */
  function DateOf(dataISO: string): (dt: Date)
    requires Displayable(dataISO)
    ensures ValidDate(dt)
  {
    var parts := Split(dataISO, '-');
    NewDate(ToNumber(parts[0]).value, ToNumber(parts[1]).value, ToNumber(parts[2]).value)
  }

  /** A falsy part leaves the input as it was; otherwise the parts are
      built into a date and shown in the locale form. Parts after the
      third are not looked at. */
  function FormatarDataLocal(dataISO: string): string
  {
    if Displayable(dataISO) then LocaleDate(DateOf(dataISO)) else dataISO
  }

  /** A real calendar date is built as it is given, once the year is past
      the two-digit range. */
  lemma NewDateValid(ano: nat, mes: nat, dia: nat)
    requires ano >= 100 && 1 <= mes <= 12 && 1 <= dia <= DaysInMonth(ano, mes)
    ensures NewDate(ano, mes, dia) == Date(ano, mes, dia)
  {
    assert (mes - 1) / 12 == 0 && (mes - 1) % 12 == mes - 1;
    assert Roll(ano, mes, dia) == Date(ano, mes, dia);
  }

  // ---------------------------------------------------------------------
  // Counting days: the reference for `Roll`
  // ---------------------------------------------------------------------

  function DaysBeforeYear(y: nat): nat
  {
    if y == 0 then 0 else DaysBeforeYear(y - 1) + YearDays(y - 1)
  }

  function DaysBeforeMonth(y: nat, m: nat): nat
    requires 1 <= m <= 12
  {
    [0, 31, 59, 90, 120, 151, 181, 212, 243, 273, 304, 334][m - 1]
    + (if Leap(y) && m > 2 then 1 else 0)
  }

  /** Days from the start of year 0 to the first of month `m` of year `y`. */
  function MonthStart(y: nat, m: nat): nat
    requires 1 <= m <= 12
  {
    DaysBeforeYear(y) + DaysBeforeMonth(y, m)
  }

  function DayNumber(dt: Date): nat
    requires ValidDate(dt)
  {
    MonthStart(dt.year, dt.month) + dt.day - 1
  }

  lemma MonthAfter(y: nat, m: nat)
    requires 1 <= m <= 12
    ensures m < 12 ==> MonthStart(y, m + 1) == MonthStart(y, m) + DaysInMonth(y, m)
    ensures m == 12 ==> MonthStart(y + 1, 1) == MonthStart(y, m) + DaysInMonth(y, m)
  {
  }

  /** Rolling lands on the day `d - 1` days after the first of the month,
      as the Date constructor's day arithmetic does. */
  lemma {:induction false} RollDayNumber(y: nat, m: nat, d: nat)
    requires 1 <= m <= 12 && d >= 1
    ensures DayNumber(Roll(y, m, d)) == MonthStart(y, m) + d - 1
    decreases d
  {
    var n := DaysInMonth(y, m);
    MonthAfter(y, m);
    if d > n {
      if m == 12 {
        RollDayNumber(y + 1, 1, d - n);
      } else {
        RollDayNumber(y, m + 1, d - n);
      }
    }
  }

  /** Two dates with the same day number are the same date. */
  lemma DayNumberInjective(a: Date, b: Date)
    requires ValidDate(a) && ValidDate(b) && DayNumber(a) == DayNumber(b)
    ensures a == b
  {
    if a.year < b.year {
      YearBound(a);
      YearStart(a.year + 1, b.year);
      assert false;
    } else if b.year < a.year {
      YearBound(b);
      YearStart(b.year + 1, a.year);
      assert false;
    } else if a.month < b.month {
      MonthBound(a.year, a.month, b.month);
      assert false;
    } else if b.month < a.month {
      MonthBound(b.year, b.month, a.month);
      assert false;
    }
  }

  /** A date's day number is below the start of the next year. */
  lemma YearBound(dt: Date)
    requires ValidDate(dt)
    ensures DayNumber(dt) < DaysBeforeYear(dt.year + 1)
  {
    MonthAfter(dt.year, 12);
    if dt.month < 12 {
      MonthBound(dt.year, dt.month, 12);
    }
  }

  lemma {:induction false} YearStart(y: nat, z: nat)
    requires y <= z
    ensures DaysBeforeYear(y) <= DaysBeforeYear(z)
    decreases z - y
  {
    if y < z {
      YearStart(y, z - 1);
    }
  }

  /** A later month of the same year starts after every day of an earlier one. */
  lemma MonthBound(y: nat, m: nat, k: nat)
    requires 1 <= m < k <= 12
    ensures MonthStart(y, m) + DaysInMonth(y, m) <= MonthStart(y, k)
  {
  }

  // ---------------------------------------------------------------------
  // What `formatarDataLocal` promises
  // ---------------------------------------------------------------------

  /** The result is the input itself exactly when the input has no three
      nonzero numeric parts; otherwise it is the date those parts name. */
  lemma FormatCases(dataISO: string)
    ensures FormatarDataLocal(dataISO) == dataISO <==> !Displayable(dataISO)
  {
    if Displayable(dataISO) {
      LocaleHasNoDash(DateOf(dataISO));
      SplitHasDash(dataISO);
    }
  }

  lemma SplitHasDash(s: string)
    requires |Split(s, '-')| >= 2
    ensures '-' in s
  {
    if '-' !in s {
      SplitFromPlain(s, '-', []);
    }
  }

  lemma LocaleHasNoDash(dt: Date)
    requires ValidDate(dt)
    ensures '-' !in LocaleDate(dt)
  {
    var a, b, c := Pad2(dt.day), Pad2(dt.month), Decimal(dt.year);
    assert LocaleDate(dt) == a + "/" + b + "/" + c;
    DigitsLack(a, '-');
    DigitsLack(b, '-');
    DigitsLack(c, '-');
  }

  /** Parts after the third do not matter. */
  lemma ExtraPartsIgnored(dataISO: string, rest: string)
    requires |Split(dataISO, '-')| >= 3
    ensures FormatarDataLocal(dataISO + "-" + rest)
            == if Displayable(dataISO) then FormatarDataLocal(dataISO) else dataISO + "-" + rest
  {
    var longer := dataISO + "-" + rest;
    SplitFromSep(dataISO, rest, '-', []);
    var p, q := Split(dataISO, '-'), Split(longer, '-');
    assert q == p + Split(rest, '-');
    assert q[0] == p[0] && q[1] == p[1] && q[2] == p[2];
    assert Displayable(longer) == Displayable(dataISO);
    FormatCases(dataISO);
    FormatCases(longer);
  }

  /** The locale text gives the date back: day, month and year are its
      three `/` parts. */
  function ReadLocale(text: string): Option<Date>
  {
    var parts := Split(text, '/');
    if |parts| == 3 && AllDigits(parts[0]) && AllDigits(parts[1]) && AllDigits(parts[2])
    then Some(Date(ValueOf(parts[2]), ValueOf(parts[1]), ValueOf(parts[0])))
    else None
  }

  lemma LocaleRoundTrip(dt: Date)
    requires ValidDate(dt)
    ensures ReadLocale(LocaleDate(dt)) == Some(dt)
  {
    var a, b, c := Pad2(dt.day), Pad2(dt.month), Decimal(dt.year);
    DigitsLack(a, '/');
    DigitsLack(b, '/');
    DigitsLack(c, '/');
    SplitThree(a, b, c, '/');
  }

  /** Three `-`-separated runs of digits, none of them zero, are read as
      year, month and day. */
  lemma FormatDigitParts(a: string, b: string, c: string)
    requires AllDigits(a) && AllDigits(b) && AllDigits(c)
    requires ValueOf(a) > 0 && ValueOf(b) > 0 && ValueOf(c) > 0
    ensures FormatarDataLocal(a + "-" + b + "-" + c)
            == LocaleDate(NewDate(ValueOf(a), ValueOf(b), ValueOf(c)))
  {
    var s := a + "-" + b + "-" + c;
    var parts := Split(s, '-');
    assert parts == [a, b, c] by {
      DigitsLack(a, '-');
      DigitsLack(b, '-');
      DigitsLack(c, '-');
      SplitThree(a, b, c, '-');
    }
    assert ToNumber(parts[0]) == Some(ValueOf(a));
    assert ToNumber(parts[1]) == Some(ValueOf(b));
    assert ToNumber(parts[2]) == Some(ValueOf(c));
    assert Displayable(s);
  }

  /** A real calendar date with a four-digit year is shown day first, with
      the same digits. */
  lemma FormatValidDate(y: nat, m: nat, d: nat)
    requires 1000 <= y <= 9999 && 1 <= m <= 12 && 1 <= d <= DaysInMonth(y, m)
    ensures FormatarDataLocal(Pad4(y) + "-" + Pad2(m) + "-" + Pad2(d)) == Pad2(d) + "/" + Pad2(m) + "/" + Pad4(y)
  {
    FormatDigitParts(Pad4(y), Pad2(m), Pad2(d));
    NewDateValid(y, m, d);
    FourDigits(y);
  }

  /** `Decimal` writes a four-digit year as `Pad4` does. */
  lemma FourDigits(y: nat)
    requires 1000 <= y <= 9999
    ensures Decimal(y) == Pad4(y)
  {
    var h, lo := y / 100, y % 100;
    DivModTen(y, 10 * h + lo / 10, lo % 10);
    DivModTen(y / 10, h, lo / 10);
    assert Decimal(y / 10) == Decimal(h) + [DigitChar(lo / 10)];
    assert Decimal(h) == Pad2(h);
  }

  // ---------------------------------------------------------------------
  // Examples
  // ---------------------------------------------------------------------

  lemma ExampleMarch5()
    ensures FormatarDataLocal("2024-03-05") == "05/03/2024"
  {
    FormatValidDate(2024, 3, 5);
    March5Text();
  }

  lemma March5Text()
    ensures Pad4(2024) + "-" + Pad2(3) + "-" + Pad2(5) == "2024-03-05"
    ensures Pad2(5) + "/" + Pad2(3) + "/" + Pad4(2024) == "05/03/2024"
  {
    assert Pad4(2024) == "2024" by {
      assert Pad2(20) == "20" && Pad2(24) == "24";
    }
  }

  /** 30 February 2024 is shown as 1 March, the day the Date constructor
      rolls it over to. */
  lemma ExampleRollover()
    ensures FormatarDataLocal("2024-02-30") == "01/03/2024"
  {
    FormatDigitParts(Pad4(2024), Pad2(2), Pad2(30));
    LeapFebruary30();
    FourDigits(2024);
    RolloverText();
  }

  lemma LeapFebruary30()
    ensures NewDate(2024, 2, 30) == Date(2024, 3, 1)
  {
    assert Leap(2024) && DaysInMonth(2024, 2) == 29;
    assert Roll(2024, 3, 1) == Date(2024, 3, 1);
  }

  lemma RolloverText()
    ensures Pad4(2024) + "-" + Pad2(2) + "-" + Pad2(30) == "2024-02-30"
    ensures Pad2(1) + "/" + Pad2(3) + "/" + Pad4(2024) == "01/03/2024"
  {
    assert Pad4(2024) == "2024" by {
      assert Pad2(20) == "20" && Pad2(24) == "24";
    }
  }

  /** A two-digit year is read in the 1900s. */
  lemma ExampleTwoDigitYear()
    ensures FormatarDataLocal("24-03-05") == "05/03/1924"
  {
    FormatDigitParts(Pad2(24), Pad2(3), Pad2(5));
    NewDateValid(1924, 3, 5);
    assert NewDate(24, 3, 5) == NewDate(1924, 3, 5);
    FourDigits(1924);
    TwoDigitYearText();
  }

  lemma TwoDigitYearText()
    ensures Pad2(24) + "-" + Pad2(3) + "-" + Pad2(5) == "24-03-05"
    ensures Pad2(5) + "/" + Pad2(3) + "/" + Pad4(1924) == "05/03/1924"
  {
    assert Pad4(1924) == "1924" by {
      assert Pad2(19) == "19" && Pad2(24) == "24";
    }
  }

  /** A missing day leaves the text as it was. */
  lemma ExampleIncomplete()
    ensures FormatarDataLocal("2024-03") == "2024-03"
  {
    SplitFromSep("2024", "03", '-', []);
    SplitFromPlain("2024", '-', []);
    SplitFromPlain("03", '-', []);
    assert "2024-03" == "2024" + "-" + "03";
  }
}
