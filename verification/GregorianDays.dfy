/** Gregorian dates and the day-number encoding used to compare calendars. */
module GregorianDays {
  import opened Truncated

  datatype Date = Date(year: int, month: int, day: int)

  predicate IsLeap(year: int) {
    (year % 4 == 0 && year % 100 != 0) || year % 400 == 0
  }

  /** Month lengths as in section 5.7 of RFC 3339. */
  function DaysInMonth(year: int, month: int): int {
    if month == 2 then (if IsLeap(year) then 29 else 28)
    else if month == 4 || month == 6 || month == 9 || month == 11 then 30
    else 31
  }

  /** A real calendar date, late enough for every division below to see a non-negative operand. */
  predicate Valid(g: Date) {
    g.year > -100100 && 1 <= g.month <= 12 && 1 <= g.day <= DaysInMonth(g.year, g.month)
  }

  function ToDayNumber(year: int, month: int, day: int): int {
    var d :=
      Div((year + Div(month - 8, 6) + 100100) * 1461, 4) +
      Div(153 * Mod(month + 9, 12) + 2, 5) +
      day -
      34840408;
    d - Div(Div(year + 100100 + Div(month - 8, 6), 100) * 3, 4) + 752
  }

  function Encode(g: Date): int {
    ToDayNumber(g.year, g.month, g.day)
  }

  /** The second half of the decoder, from the scaled count of quarter days on. */
  function FromQuarterDays(j: int): Date {
    var i := Div(Mod(j, 1461), 4) * 5 + 308;
    var day := Div(Mod(i, 153), 5) + 1;
    var month := Mod(Div(i, 153), 12) + 1;
    var year := Div(j, 1461) - 100100 + Div(8 - month, 6);
    Date(year, month, day)
  }

  function FromDayNumber(dayNumber: int): Date {
    var j := 4 * dayNumber + 139361631;
    FromQuarterDays(j + Div(Div(4 * dayNumber + 183187720, 146097) * 3, 4) * 4 - 3908)
  }

  /** The calendar day after `g`. */
  function Next(g: Date): Date {
    if g.day < DaysInMonth(g.year, g.month) then Date(g.year, g.month, g.day + 1)
    else if g.month < 12 then Date(g.year, g.month + 1, 1)
    else Date(g.year + 1, 1, 1)
  }

  // ----- Years counted from March, so that the leap day comes last

  /** The shifted year that a month belongs to (March opens the year). */
  function MarchYear(g: Date): int {
    g.year + 100100 - if g.month < 3 then 1 else 0
  }

  /** March is 0, February is 11. */
  function MarchMonth(month: int): int {
    if month < 3 then month + 9 else month - 3
  }

  /** Days before a month of the shifted year. */
  function DaysBefore(p: int): int {
    (153 * p + 2) / 5
  }

  /** Days before the shifted year `a`, leap days included. */
  function YearStart(a: int): int {
    1461 * a / 4 - a / 100 * 3 / 4
  }

  lemma MonthShift(month: int)
    requires 1 <= month <= 12
    ensures Div(month - 8, 6) == if month < 3 then -1 else 0
    ensures Div(8 - month, 6) == if month < 3 then 1 else 0
    ensures Mod(month + 9, 12) == MarchMonth(month)
  {
    if month < 3 {
      QuotientIs(1, 2 - month, 6);
      QuotientIs(0, month + 9, 12);
    } else {
      QuotientIs(1, month - 3, 12);
    }
  }

  lemma YearTerm(year: int, shift: int)
    requires year + shift + 100100 >= 0
    ensures Div((year + shift + 100100) * 1461, 4) == 1461 * (year + shift + 100100) / 4
  {
    OnNat((year + shift + 100100) * 1461, 4);
  }

  lemma CenturyTerm(year: int, shift: int)
    requires year + 100100 + shift >= 0
    ensures Div(Div(year + 100100 + shift, 100) * 3, 4) == (year + 100100 + shift) / 100 * 3 / 4
  {
    OnNat(year + 100100 + shift, 100);
    OnNat((year + 100100 + shift) / 100 * 3, 4);
  }

  lemma EncodeIs(g: Date)
    requires 1 <= g.month <= 12 && g.year > -100100
    ensures Encode(g) == YearStart(MarchYear(g)) + DaysBefore(MarchMonth(g.month)) + g.day - 34839656
  {
    hide Div, Mod;
    MonthShift(g.month);
    OnNat(153 * MarchMonth(g.month) + 2, 5);
    var shift := Div(g.month - 8, 6);
    YearTerm(g.year, shift);
    CenturyTerm(g.year, shift);
    assert g.year + shift + 100100 == MarchYear(g) == g.year + 100100 + shift;
  }

  predicate LeapShifted(a: int) {
    a % 4 == 3 && (a % 100 == 99 ==> a % 400 == 99)
  }

  lemma JulianLength(a: nat)
    ensures 1461 * (a + 1) / 4 == 1461 * a / 4 + 365 + if a % 4 == 3 then 1 else 0
  {
  }

  lemma CenturyStep(a: nat, c: nat, r: nat)
    requires a == 100 * c + r && r < 100
    ensures (a + 1) / 100 * 3 / 4 == a / 100 * 3 / 4 + if r == 99 && c % 4 != 0 then 1 else 0
  {
    assert a / 100 == c && (a + 1) / 100 == if r == 99 then c + 1 else c;
    var q, f := c / 4, c % 4;
    assert c == 4 * q + f;
    assert c * 3 / 4 == 3 * q + f * 3 / 4 && (c + 1) * 3 / 4 == 3 * q + (f + 1) * 3 / 4;
  }

  lemma ShiftedParts(a: nat, c: nat, r: nat)
    requires a == 100 * c + r && r < 100
    ensures a % 4 == r % 4 && a % 100 == r && (a % 400 == 99 <==> r == 99 && c % 4 == 0)
  {
    var q, f := c / 4, c % 4;
    EuclidIs(a, 25 * c + r / 4, r % 4, 4);
    EuclidIs(a, c, r, 100);
    EuclidIs(a, q, 100 * f + r, 400);
  }

  lemma YearLength(a: nat)
    ensures YearStart(a + 1) == YearStart(a) + 365 + if LeapShifted(a) then 1 else 0
  {
    var c, r := a / 100, a % 100;
    ShiftedParts(a, c, r);
    JulianLength(a);
    CenturyStep(a, c, r);
  }

  /** The leap rule of the Gregorian year, seen from the shifted year that ends in its February. */
  lemma LeapIsShifted(year: int)
    requires year > -100100
    ensures IsLeap(year) <==> LeapShifted(year + 100099)
  {
    var a := year + 100099;
    assert year % 4 == 0 <==> a % 4 == 3;
    assert year % 100 == 0 <==> a % 100 == 99;
    assert year % 400 == 0 <==> a % 400 == 99;
    assert a % 400 == 99 ==> a % 100 == 99;
  }

  lemma MonthLength(g: Date)
    requires 1 <= g.month <= 12 && g.month != 2
    ensures var p := MarchMonth(g.month);
            p < 11 && DaysBefore(p + 1) == DaysBefore(p) + DaysInMonth(g.year, g.month)
  {
  }

  lemma FebruaryLength(g: Date)
    requires g.month == 2 && g.year > -100100
    ensures DaysBefore(11) + DaysInMonth(g.year, 2) == 365 + if LeapShifted(MarchYear(g)) then 1 else 0
  {
    LeapIsShifted(g.year);
  }

  /** The day number grows by exactly one per calendar day. */
  lemma EncodeNext(g: Date)
    requires Valid(g)
    ensures Valid(Next(g)) && Encode(Next(g)) == Encode(g) + 1
  {
    hide Encode;
    EncodeIs(g);
    EncodeIs(Next(g));
    if g.month == 2 {
      FebruaryLength(g);
      YearLength(MarchYear(g));
    } else {
      MonthLength(g);
    }
  }

  // ----- Decoding

  /** The day of the shifted year, 0 on 1 March. */
  function DayOfYear(g: Date): int {
    DaysBefore(MarchMonth(g.month)) + g.day - 1
  }

  lemma DayOfYearRange(g: Date)
    requires Valid(g)
    ensures 0 <= DayOfYear(g) <= 365
    ensures DayOfYear(g) == 365 ==> LeapShifted(MarchYear(g))
  {
    if g.month == 2 {
      FebruaryLength(g);
    } else {
      MonthLength(g);
    }
  }

  lemma QuartersOfYears(a: nat)
    ensures 4 * (1461 * a / 4) == 1461 * a - a % 4
  {
  }

  lemma QuartersOfCenturies(c: nat)
    ensures 4 * (c * 3 / 4) == 3 * c - if c % 4 == 0 then 0 else 4 - c % 4
  {
  }

  /** Four times the days counted up to a date fall in the span of its century. */
  lemma CenturyIs(a: nat, c: nat, r: nat, doy: int)
    requires a == 100 * c + r && r < 100 && 0 <= doy <= 365 && (doy == 365 ==> LeapShifted(a))
    ensures 0 <= 4 * (YearStart(a) + doy) - 146097 * c < 146097
  {
    ShiftedParts(a, c, r);
    QuartersOfYears(a);
    QuartersOfCenturies(c);
    var years, centuries := 1461 * a / 4, c * 3 / 4;
    assert YearStart(a) == years - centuries;
    assert 4 * years == 1461 * a - r % 4 && 3 * c - 3 <= 4 * centuries <= 3 * c;
    assert r == 99 && doy == 365 ==> 4 * centuries == 3 * c;
  }

  /** Month and day are recovered from the day of the shifted year. */
  lemma MonthDayIs(p: int, d: int)
    requires 0 <= p < 12 && 1 <= d <= 31 && (p < 11 ==> DaysBefore(p) + d <= DaysBefore(p + 1)) && (p == 11 ==> d <= 29)
    ensures var i := (DaysBefore(p) + d - 1) * 5 + 308;
            i / 153 == p + 2 && i % 153 / 5 + 1 == d
  {
  }

  /** The scaled day count that the decoder divides by the length of four Julian years. */
  lemma DecodeYear(a: nat, doy: int, dayNumber: int)
    requires 0 <= doy <= 365 && (doy == 365 ==> LeapShifted(a))
    requires dayNumber == YearStart(a) + doy + 1 - 34839656
    ensures var j := 4 * dayNumber + 139361631 + Div(Div(4 * dayNumber + 183187720, 146097) * 3, 4) * 4 - 3908;
            j == 1461 * a + (4 * doy + 3 - a % 4)
  {
    var c := a / 100;
    assert Div(4 * dayNumber + 183187720, 146097) == 300 + c by {
      hide YearStart, LeapShifted;
      CenturyIs(a, c, a % 100, doy);
      QuotientIs(300 + c, 4 * (YearStart(a) + doy) - 146097 * c, 146097);
    }
    assert Div((300 + c) * 3, 4) == 225 + c * 3 / 4 by {
      QuotientIs(225 + c * 3 / 4, c * 3 % 4, 4);
    }
    assert 4 * YearStart(a) == 1461 * a - a % 4 - 4 * (c * 3 / 4) by {
      QuartersOfYears(a);
    }
    hide YearStart, LeapShifted, Div;
  }

  lemma QuarterDays(a: nat, doy: nat, j: int)
    requires doy <= 365 && (doy == 365 ==> a % 4 == 3) && j == 1461 * a + (4 * doy + 3 - a % 4)
    ensures Div(j, 1461) == a && Div(Mod(j, 1461), 4) == doy
  {
    var rest := 4 * doy + 3 - a % 4;
    QuotientIs(a, rest, 1461);
    assert Mod(j, 1461) == rest;
    QuotientIs(doy, 3 - a % 4, 4);
  }

  lemma MonthAndDay(g: Date, i: int)
    requires Valid(g) && i == DayOfYear(g) * 5 + 308
    ensures Mod(Div(i, 153), 12) + 1 == g.month && Div(Mod(i, 153), 5) + 1 == g.day
  {
    var p := MarchMonth(g.month);
    if g.month != 2 {
      MonthLength(g);
    }
    MonthDayIs(p, g.day);
    OnNat(i, 153);
    OnNat(i % 153, 5);
    QuotientIs(if p + 2 < 12 then 0 else 1, if p + 2 < 12 then p + 2 else p - 10, 12);
  }

  /** Decoding inverts encoding on every real Gregorian date. */
  lemma DecodeEncode(g: Date)
    requires Valid(g)
    ensures FromDayNumber(Encode(g)) == g
  {
    hide Encode, Div, Mod;
    var a, doy := MarchYear(g), DayOfYear(g);
    DayOfYearRange(g);
    var j := 1461 * a + (4 * doy + 3 - a % 4);
    assert FromDayNumber(Encode(g)) == FromQuarterDays(j) by {
      EncodeIs(g);
      DecodeYear(a, doy, Encode(g));
    }
    QuarterDays(a, doy, j);
    MonthAndDay(g, doy * 5 + 308);
    MonthShift(g.month);
  }

  const FIRST := Date(-100099, 1, 1)

  /** Every day number from the first real date on is the number of a real date. */
  lemma {:induction false} DateOf(dayNumber: int) returns (g: Date)
    requires Encode(FIRST) <= dayNumber
    ensures Valid(g) && Encode(g) == dayNumber
    decreases dayNumber - Encode(FIRST)
  {
    if dayNumber == Encode(FIRST) {
      g := FIRST;
    } else {
      var before := DateOf(dayNumber - 1);
      EncodeNext(before);
      g := Next(before);
    }
  }

  /** Encoding inverts decoding: a day number decodes to the one real date that carries it. */
  lemma EncodeDecode(dayNumber: int)
    requires Encode(FIRST) <= dayNumber
    ensures Valid(FromDayNumber(dayNumber)) && Encode(FromDayNumber(dayNumber)) == dayNumber
  {
    var g := DateOf(dayNumber);
    DecodeEncode(g);
  }
}
