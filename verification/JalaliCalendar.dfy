/** Conversion between Jalali and Gregorian dates, and what it guarantees over the
    whole supported range of Jalali years. */
module JalaliCalendar {
  import opened Truncated
  import opened JalaliCycle
  import opened GregorianDays

  datatype JalaliDate = JalaliDate(year: int, month: int, day: int)

  predicate Supported(year: int) {
    MIN_YEAR <= year <= MAX_YEAR
  }

  function NowruzDay(year: int): int {
    var info := CalendarInfo(year + 621, false);
    ToDayNumber(info.jalaliYear + 621, 3, info.march)
  }

  function OffsetFromNowruz(month: int, day: int): int {
    (month - 1) * 31 - Div(month, 7) * (month - 7) + day - 1
  }

  function JalaliDaysInMonth(year: int, month: int): int {
    if month <= 6 then 31
    else if month <= 11 then 30
    else if IsLeapYear(year) then 30
    else 29
  }

  predicate IsValidJalali(j: JalaliDate) {
    1 <= j.month <= 12 && 1 <= j.day <= JalaliDaysInMonth(j.year, j.month)
  }

  function ToJalali(g: Date): JalaliDate {
    var dayNumber := Encode(g);
    var info := CalendarInfo(g.year, true);
    var offset := dayNumber - ToDayNumber(info.jalaliYear + 621, 3, info.march);
    if 0 <= offset <= 185 then
      JalaliDate(info.jalaliYear, 1 + Div(offset, 31), Mod(offset, 31) + 1)
    else if offset >= 0 then
      var into := offset - 186;
      JalaliDate(info.jalaliYear, 7 + Div(into, 30), Mod(into, 30) + 1)
    else
      var previous := info.jalaliYear - 1;
      var into := dayNumber - NowruzDay(previous) - 186;
      JalaliDate(previous, 7 + Div(into, 30), Mod(into, 30) + 1)
  }

  /** The day number that a Jalali date stands for. */
  function JalaliDayNumber(j: JalaliDate): int {
    NowruzDay(j.year) + OffsetFromNowruz(j.month, j.day)
  }

  function ToGregorian(j: JalaliDate): Date {
    FromDayNumber(JalaliDayNumber(j))
  }

  /** The Gregorian days that fall in a supported Jalali year. */
  predicate InSpan(g: Date) {
    Valid(g) && NowruzDay(MIN_YEAR) <= Encode(g) < NowruzDay(MAX_YEAR + 1)
  }

  // ----- Nowruz

  /** The Gregorian century corrections in `march` and in the day number cancel. */
  lemma CenturiesCancel(gregorianYear: nat)
    ensures YearStart(gregorianYear + 100100) - GregorianLeaps(gregorianYear) == 365 * gregorianYear + 36560925
  {
    var c := gregorianYear / 100;
    assert (gregorianYear + 100100) / 100 == c + 1001;
    assert (c + 1001) * 3 / 4 == 750 + (c + 1) * 3 / 4;
    assert 1461 * (gregorianYear + 100100) / 4 == 365 * (gregorianYear + 100100) + gregorianYear / 4 + 25025;
    OnNat(gregorianYear, 4);
    OnNat(gregorianYear, 100);
    OnNat((c + 1) * 3, 4);
  }

  function March(year: int): int {
    20 + LeapCount(year) - GregorianLeaps(year + 621)
  }

  lemma NowruzInMarch(year: int)
    ensures NowruzDay(year) == Encode(Date(year + 621, 3, March(year)))
  {
  }

  /** What is left of Nowruz once the centuries cancel: whole years plus the leap count. */
  lemma NowruzIs(year: int)
    requires year >= MIN_YEAR
    ensures NowruzDay(year) == 365 * year + LeapCount(year) + 1947954
  {
    var gregorianYear := year + 621;
    var g := Date(gregorianYear, 3, March(year));
    NowruzInMarch(year);
    EncodeIs(g);
    assert MarchMonth(3) == 0 && DaysBefore(0) == 0;
    assert MarchYear(g) == gregorianYear + 100100;
    CenturiesCancel(gregorianYear);
  }

  /** Consecutive Nowruz days are 366 days apart exactly when the leap test says so. */
  lemma NowruzSpacing(year: int)
    requires Supported(year)
    ensures NowruzDay(year + 1) - NowruzDay(year) == if IsLeapYear(year) then 366 else 365
  {
    NowruzIs(year);
    NowruzIs(year + 1);
    LeapTestMatchesCount(year);
  }

  // ----- Nowruz stays near the equinox, so a Gregorian year meets exactly two Jalali years

  lemma BreakAfter(k: nat, jump: nat)
    requires k + 1 < |LEAP_BREAKS| && jump == LEAP_BREAKS[k + 1] - LEAP_BREAKS[k]
    ensures LeapsBefore(k + 1) == LeapsBefore(k) + 8 * (jump / 33) + jump % 33 / 4
  {
    NextBreak(k, k + 1, jump);
    OnNat(jump, 33);
    OnNat(jump % 33, 4);
  }

  // Where each stretch starts, the leap count there, and the length of the stretch.

  predicate EarlyStretch(start: int, leaps: int, jump: int) {
    || (start == -61 && leaps == -14 && jump == 70)
    || (start == 9 && leaps == 3 && jump == 29)
    || (start == 38 && leaps == 10 && jump == 161)
    || (start == 199 && leaps == 49 && jump == 227)
    || (start == 426 && leaps == 104 && jump == 260)
    || (start == 686 && leaps == 167 && jump == 70)
    || (start == 756 && leaps == 184 && jump == 62)
  }

  predicate MiddleStretch(start: int, leaps: int, jump: int) {
    || (start == 818 && leaps == 199 && jump == 293)
    || (start == 1111 && leaps == 270 && jump == 70)
    || (start == 1181 && leaps == 287 && jump == 29)
    || (start == 1210 && leaps == 294 && jump == 425)
    || (start == 1635 && leaps == 397 && jump == 425)
    || (start == 2060 && leaps == 500 && jump == 37)
  }

  predicate LateStretch(start: int, leaps: int, jump: int) {
    || (start == 2097 && leaps == 509 && jump == 95)
    || (start == 2192 && leaps == 532 && jump == 70)
    || (start == 2262 && leaps == 549 && jump == 62)
    || (start == 2324 && leaps == 564 && jump == 70)
    || (start == 2394 && leaps == 581 && jump == 62)
    || (start == 2456 && leaps == 596 && jump == 722)
  }

  lemma EarlyTable(k: nat)
    requires 0 <= k < 7 && LeapsBefore(0) == -14
    ensures LeapsBefore(7) == 199
    ensures EarlyStretch(LEAP_BREAKS[k], LeapsBefore(k), LEAP_BREAKS[k + 1] - LEAP_BREAKS[k])
  {
    hide LeapsBefore;
    BreakAfter(0, 70);
    assert LeapsBefore(1) == 3;
    BreakAfter(1, 29);
    assert LeapsBefore(2) == 10;
    BreakAfter(2, 161);
    assert LeapsBefore(3) == 49;
    BreakAfter(3, 227);
    assert LeapsBefore(4) == 104;
    BreakAfter(4, 260);
    assert LeapsBefore(5) == 167;
    BreakAfter(5, 70);
    assert LeapsBefore(6) == 184;
    BreakAfter(6, 62);
    assert LeapsBefore(7) == 199;
  }

  lemma MiddleTable(k: nat)
    requires 7 <= k < 13 && LeapsBefore(7) == 199
    ensures LeapsBefore(13) == 509
    ensures MiddleStretch(LEAP_BREAKS[k], LeapsBefore(k), LEAP_BREAKS[k + 1] - LEAP_BREAKS[k])
  {
    hide LeapsBefore;
    BreakAfter(7, 293);
    assert LeapsBefore(8) == 270;
    BreakAfter(8, 70);
    assert LeapsBefore(9) == 287;
    BreakAfter(9, 29);
    assert LeapsBefore(10) == 294;
    BreakAfter(10, 425);
    assert LeapsBefore(11) == 397;
    BreakAfter(11, 425);
    assert LeapsBefore(12) == 500;
    BreakAfter(12, 37);
    assert LeapsBefore(13) == 509;
  }

  lemma LateTable(k: nat)
    requires 13 <= k < 19 && LeapsBefore(13) == 509
    ensures LeapsBefore(19) == 771
    ensures LateStretch(LEAP_BREAKS[k], LeapsBefore(k), LEAP_BREAKS[k + 1] - LEAP_BREAKS[k])
  {
    hide LeapsBefore;
    BreakAfter(13, 95);
    assert LeapsBefore(14) == 532;
    BreakAfter(14, 70);
    assert LeapsBefore(15) == 549;
    BreakAfter(15, 62);
    assert LeapsBefore(16) == 564;
    BreakAfter(16, 70);
    assert LeapsBefore(17) == 581;
    BreakAfter(17, 62);
    assert LeapsBefore(18) == 596;
    BreakAfter(18, 722);
    assert LeapsBefore(19) == 771;
  }

  /** The day in March of Nowruz, `n` years after a break with the given leap count. */
  function MarchInto(year: int, leaps: int, n: nat): int {
    20 + leaps + 8 * (n / 33) + (n % 33 + 3) / 4 - ((year + 621) / 4 - ((year + 621) / 100 + 1) * 3 / 4 - 150)
  }

  lemma GregorianLeapsIs(gregorianYear: nat)
    ensures GregorianLeaps(gregorianYear) == gregorianYear / 4 - (gregorianYear / 100 + 1) * 3 / 4 - 150
  {
    OnNat(gregorianYear, 4);
    OnNat(gregorianYear, 100);
    OnNat((gregorianYear / 100 + 1) * 3, 4);
  }

  lemma MarchFrom(year: int, leaps: int, n: nat, jump: nat)
    requires year + 621 >= 0 && LeapCount(year) == leaps + LeapsWithin(n, jump)
    ensures March(year) == MarchInto(year, leaps, n) + if jump % 33 == 4 && jump - n == 4 then 1 else 0
  {
    hide LeapCount, LeapsWithin, GregorianLeaps;
    CountAt(n, n / 33, n % 33, jump);
    GregorianLeapsIs(year + 621);
  }

  lemma MarchIs(year: int, k: nat)
    requires k < |LEAP_BREAKS| && MIN_YEAR <= year && k == Segment(year, 0)
    ensures var n := year - LEAP_BREAKS[k];
            n >= 0 && March(year) == MarchInto(year, LeapsBefore(k), n)
                                     + if Jump(k) % 33 == 4 && Jump(k) - n == 4 then 1 else 0
  {
    hide March, MarchInto, LeapsWithin, LeapsBefore, Jump, Segment, LeapCount;
    JumpShape(k);
    WalkFindsSegment(year, k);
    MarchFrom(year, LeapsBefore(k), year - LEAP_BREAKS[k], Jump(k));
  }

  /** The equinox falls on 20 to 22 March throughout the stretch, its corrected year included. */
  predicate Equinox(start: int, leaps: int, jump: int, n: nat) {
    && 20 <= MarchInto(start + n, leaps, n) <= 22
    && (jump % 33 == 4 && jump - n == 4 ==> MarchInto(start + n, leaps, n) <= 21)
  }

  lemma EarlyEquinox(start: int, leaps: int, jump: int, n: nat)
    requires EarlyStretch(start, leaps, jump) && n < jump
    ensures Equinox(start, leaps, jump, n)
  {
  }

  lemma MiddleEquinox(start: int, leaps: int, jump: int, n: nat)
    requires MiddleStretch(start, leaps, jump) && n < jump
    ensures Equinox(start, leaps, jump, n)
  {
  }

  lemma LateEquinox(start: int, leaps: int, jump: int, n: nat)
    requires LateStretch(start, leaps, jump) && n < jump
    ensures Equinox(start, leaps, jump, n)
  {
  }

  lemma CountsAtBreaks()
    ensures LeapsBefore(0) == -14 && LeapsBefore(7) == 199 && LeapsBefore(13) == 509 && LeapsBefore(19) == 771
  {
    StartsAtEpoch();
    EarlyTable(0);
    MiddleTable(7);
    LateTable(13);
  }

  lemma InStretch(k: nat, n: nat)
    requires k + 1 < |LEAP_BREAKS| && n < LEAP_BREAKS[k + 1] - LEAP_BREAKS[k]
    ensures Equinox(LEAP_BREAKS[k], LeapsBefore(k), LEAP_BREAKS[k + 1] - LEAP_BREAKS[k], n)
  {
    hide LeapsBefore, Equinox, EarlyStretch, MiddleStretch, LateStretch;
    var start, leaps, jump := LEAP_BREAKS[k], LeapsBefore(k), LEAP_BREAKS[k + 1] - LEAP_BREAKS[k];
    CountsAtBreaks();
    if k < 7 {
      EarlyTable(k);
      EarlyEquinox(start, leaps, jump, n);
    } else if k < 13 {
      MiddleTable(k);
      MiddleEquinox(start, leaps, jump, n);
    } else {
      LateTable(k);
      LateEquinox(start, leaps, jump, n);
    }
  }

  /** Nowruz falls on 20, 21 or 22 March in every supported year. */
  lemma MarchRange(year: int)
    requires MIN_YEAR <= year <= MAX_YEAR + 1
    ensures 20 <= March(year) <= 22
  {
    hide March, MarchInto, LeapsBefore, Segment, Jump;
    var k := Segment(year, 0);
    MarchIs(year, k);
    if k < 19 {
      JumpIs(k);
      InStretch(k, year - LEAP_BREAKS[k]);
    } else {
      LastEquinox();
    }
  }

  lemma JumpIs(k: nat)
    requires k + 1 < |LEAP_BREAKS|
    ensures Jump(k) == LEAP_BREAKS[k + 1] - LEAP_BREAKS[k]
  {
  }

  lemma LastEquinox()
    ensures MarchInto(3178, LeapsBefore(19), 0) == 20 && Jump(19) == 722
  {
    CountsAtBreaks();
    hide LeapsBefore;
  }

  lemma NowadaysEquinox(n: nat)
    requires 128 <= n <= 372
    ensures MarchInto(1210 + n, 294, n) == 22 <==> n == 128 || n == 372
  {
  }

  /** From 1339 to 1581 it falls on 20 or 21 March; in the years just before and after, on the 22nd. */
  lemma MarchNowadays(year: int)
    requires 1338 <= year <= 1582
    ensures March(year) == 22 <==> year == 1338 || year == 1582
  {
    hide March, MarchInto, LeapsBefore, Segment, Jump;
    SegmentIs(year, 10, 0);
    MarchIs(year, 10);
    CountsAtBreaks();
    MiddleTable(10);
    JumpIs(10);
    NowadaysEquinox(year - 1210);
    assert 1210 + (year - 1210) == year;
  }

  // ----- Day numbers order dates

  lemma WithinYear(g: Date)
    requires Valid(g)
    ensures Encode(Date(g.year, 1, 1)) <= Encode(g) < Encode(Date(g.year + 1, 1, 1))
  {
    hide Encode;
    EncodeIs(g);
    EncodeIs(Date(g.year, 1, 1));
    EncodeIs(Date(g.year + 1, 1, 1));
    YearLength(g.year + 100099);
    if g.month < 3 {
      DayOfYearRange(g);
    } else {
      DayOfYearRange(g);
    }
  }

  lemma {:induction false} JanuaryFirstsIncrease(lo: int, hi: int)
    requires -100100 < lo <= hi
    ensures Encode(Date(lo, 1, 1)) <= Encode(Date(hi, 1, 1))
    decreases hi - lo
  {
    if lo < hi {
      var last := hi - 1;
      WithinYear(Date(last, 1, 1));
      assert last + 1 == hi;
      JanuaryFirstsIncrease(lo, last);
    }
  }

  /** A date in an earlier year has a smaller day number. */
  lemma YearsOrdered(g: Date, h: Date)
    requires Valid(g) && Valid(h) && g.year < h.year
    ensures Encode(g) < Encode(h)
  {
    WithinYear(g);
    WithinYear(h);
    JanuaryFirstsIncrease(g.year + 1, h.year);
  }

  // ----- A day within a Jalali year

  lemma OffsetIs(month: int, day: int)
    requires 1 <= month <= 12
    ensures OffsetFromNowruz(month, day) == (if month <= 6 then (month - 1) * 31 else 186 + (month - 7) * 30) + day - 1
  {
    if month >= 7 {
      QuotientIs(1, month - 7, 7);
    }
  }

  function YearDays(year: int): int {
    if IsLeapYear(year) then 366 else 365
  }

  lemma OffsetRange(j: JalaliDate)
    requires IsValidJalali(j)
    ensures 0 <= OffsetFromNowruz(j.month, j.day) < YearDays(j.year)
  {
    OffsetIs(j.month, j.day);
  }

  lemma FirstHalf(year: int, offset: int)
    requires 0 <= offset <= 185
    ensures var j := JalaliDate(year, 1 + Div(offset, 31), Mod(offset, 31) + 1);
            IsValidJalali(j) && OffsetFromNowruz(j.month, j.day) == offset
  {
  }

  lemma SecondHalf(year: int, into: int)
    requires 0 <= into && into + 186 < YearDays(year)
    ensures var j := JalaliDate(year, 7 + Div(into, 30), Mod(into, 30) + 1);
            IsValidJalali(j) && OffsetFromNowruz(j.month, j.day) == into + 186
  {
    OnNat(into, 30);
    OffsetIs(7 + into / 30, into % 30 + 1);
  }

  lemma {:induction false} NowruzIncreases(lo: int, hi: int)
    requires MIN_YEAR <= lo < hi <= MAX_YEAR + 1
    ensures NowruzDay(lo) + YearDays(lo) <= NowruzDay(hi)
    decreases hi - lo
  {
    hide NowruzDay, IsLeapYear;
    var last := hi - 1;
    NowruzSpacing(last);
    assert last + 1 == hi;
    if lo < last {
      NowruzIncreases(lo, last);
    }
  }

  /** Two valid dates with one day number are one date. */
  lemma DayNumberDetermines(j: JalaliDate, k: JalaliDate)
    requires IsValidJalali(j) && IsValidJalali(k) && Supported(j.year) && Supported(k.year)
    requires JalaliDayNumber(j) == JalaliDayNumber(k)
    ensures j == k
  {
    OffsetRange(j);
    OffsetRange(k);
    if j.year < k.year {
      NowruzIncreases(j.year, k.year);
    } else if k.year < j.year {
      NowruzIncreases(k.year, j.year);
    }
    OffsetIs(j.month, j.day);
    OffsetIs(k.month, k.day);
  }

  // ----- The conversions

  lemma NowruzDate(year: int)
    requires MIN_YEAR <= year <= MAX_YEAR + 1
    ensures var g := Date(year + 621, 3, March(year)); Valid(g) && Encode(g) == NowruzDay(year)
  {
    MarchRange(year);
    NowruzInMarch(year);
  }

  /** New Year's Day of a Gregorian year lies past the first 186 days of the running Jalali year. */
  lemma JanuaryIsLate(year: int)
    requires Supported(year)
    ensures NowruzDay(year) + 186 <= Encode(Date(year + 622, 1, 1))
  {
    NowruzDate(year);
    MarchRange(year);
    EncodeIs(Date(year + 621, 3, March(year)));
    EncodeIs(Date(year + 622, 1, 1));
  }

  /** `year` is the Jalali year that the conversion measures a Gregorian day from. */
  predicate FallsIn(g: Date, year: int) {
    Supported(year) && NowruzDay(year) <= Encode(g) < NowruzDay(year) + YearDays(year)
  }

  /** A day on or after the Nowruz of its Gregorian year. */
  lemma AfterNowruz(g: Date, year: int)
    requires InSpan(g) && year == g.year - 621 && MIN_YEAR <= year <= MAX_YEAR + 1 && NowruzDay(year) <= Encode(g)
    ensures FallsIn(g, year)
  {
    hide NowruzDay, Encode, IsLeapYear, March;
    if year <= MAX_YEAR {
      var next := year + 1;
      NowruzDate(next);
      YearsOrdered(g, Date(next + 621, 3, March(next)));
      NowruzSpacing(year);
    }
  }

  /** A day before the Nowruz of its Gregorian year belongs to the previous Jalali year, in its second half. */
  lemma BeforeNowruz(g: Date, year: int)
    requires InSpan(g) && year == g.year - 621 && MIN_YEAR <= year <= MAX_YEAR + 1 && Encode(g) < NowruzDay(year)
    ensures FallsIn(g, year - 1) && NowruzDay(year - 1) + 186 <= Encode(g)
  {
    hide NowruzDay, Encode, IsLeapYear;
    var previous := year - 1;
    assert previous + 1 == year;
    NowruzSpacing(previous);
    JanuaryIsLate(previous);
    assert previous + 622 == g.year;
    WithinYear(g);
  }

  /** The Gregorian years that meet the span. */
  lemma SpanYears(g: Date)
    requires InSpan(g)
    ensures MIN_YEAR <= g.year - 621 <= MAX_YEAR + 1
  {
    NowruzDate(MIN_YEAR);
    NowruzDate(MAX_YEAR + 1);
    if g.year < MIN_YEAR + 621 {
      YearsOrdered(g, Date(MIN_YEAR + 621, 3, March(MIN_YEAR)));
    } else if g.year > MAX_YEAR + 622 {
      YearsOrdered(Date(MAX_YEAR + 622, 3, March(MAX_YEAR + 1)), g);
    }
  }

  /** The conversion reads the same year's Nowruz that `NowruzDay` gives. */
  lemma SameNowruz(g: Date, year: int)
    requires year == g.year - 621
    ensures var info := CalendarInfo(g.year, true);
            info.jalaliYear == year && ToDayNumber(info.jalaliYear + 621, 3, info.march) == NowruzDay(year)
  {
  }

  /** Every Gregorian day of the span converts to a valid Jalali date of a supported year that
      stands for the same day. */
  lemma ToJalaliCorrect(g: Date)
    requires InSpan(g)
    ensures var j := ToJalali(g); IsValidJalali(j) && Supported(j.year) && JalaliDayNumber(j) == Encode(g)
  {
    hide NowruzDay, ToDayNumber, IsLeapYear, CalendarInfo, OffsetFromNowruz, Div, Mod;
    SpanYears(g);
    var year := g.year - 621;
    SameNowruz(g, year);
    var offset := Encode(g) - NowruzDay(year);
    if offset < 0 {
      var previous := year - 1;
      BeforeNowruz(g, year);
      SecondHalf(previous, Encode(g) - NowruzDay(previous) - 186);
    } else {
      AfterNowruz(g, year);
      if offset <= 185 {
        FirstHalf(year, offset);
      } else {
        SecondHalf(year, offset - 186);
      }
    }
  }

  /** Every valid Jalali date of a supported year converts to a real Gregorian day of the span. */
  lemma ToGregorianCorrect(j: JalaliDate)
    requires IsValidJalali(j) && Supported(j.year)
    ensures InSpan(ToGregorian(j)) && Encode(ToGregorian(j)) == JalaliDayNumber(j)
  {
    hide NowruzDay, Encode, IsLeapYear, March, FromDayNumber;
    OffsetRange(j);
    if MIN_YEAR < j.year {
      NowruzIncreases(MIN_YEAR, j.year);
    }
    NowruzIncreases(j.year, MAX_YEAR + 1);
    NowruzDate(MIN_YEAR);
    YearsOrdered(FIRST, Date(MIN_YEAR + 621, 3, March(MIN_YEAR)));
    EncodeDecode(JalaliDayNumber(j));
  }

  /** Jalali to Gregorian and back is the identity on every valid date of every supported year. */
  lemma JalaliRoundTrip(j: JalaliDate)
    requires IsValidJalali(j) && Supported(j.year)
    ensures ToJalali(ToGregorian(j)) == j
  {
    ToGregorianCorrect(j);
    ToJalaliCorrect(ToGregorian(j));
    DayNumberDetermines(ToJalali(ToGregorian(j)), j);
  }

  /** Gregorian to Jalali and back is the identity on every day of the span. */
  lemma GregorianRoundTrip(g: Date)
    requires InSpan(g)
    ensures ToGregorian(ToJalali(g)) == g
  {
    ToJalaliCorrect(g);
    DecodeEncode(g);
  }

  /** The Jalali day after `j`. */
  function NextJalali(j: JalaliDate): JalaliDate {
    if j.day < JalaliDaysInMonth(j.year, j.month) then JalaliDate(j.year, j.month, j.day + 1)
    else if j.month < 12 then JalaliDate(j.year, j.month + 1, 1)
    else JalaliDate(j.year + 1, 1, 1)
  }

  lemma NextJalaliDayNumber(j: JalaliDate)
    requires IsValidJalali(j) && Supported(j.year)
    ensures IsValidJalali(NextJalali(j)) && JalaliDayNumber(NextJalali(j)) == JalaliDayNumber(j) + 1
  {
    hide NowruzDay, IsLeapYear, OffsetFromNowruz;
    var next := NextJalali(j);
    OffsetIs(j.month, j.day);
    OffsetIs(next.month, next.day);
    NowruzSpacing(j.year);
  }

  lemma NextStaysSupported(j: JalaliDate, k: JalaliDate)
    requires IsValidJalali(j) && Supported(j.year) && IsValidJalali(k) && Supported(k.year)
    requires JalaliDayNumber(k) == JalaliDayNumber(j) + 1
    ensures Supported(NextJalali(j).year)
  {
    hide NowruzDay, IsLeapYear;
    if j.year == MAX_YEAR && NextJalali(j).year != MAX_YEAR {
      NextJalaliDayNumber(j);
      OffsetRange(k);
      NowruzIncreases(k.year, MAX_YEAR + 1);
      OffsetIs(1, 1);
    }
  }

  /** Consecutive days convert to consecutive dates, across every month and year end. */
  lemma ConsecutiveDays(g: Date)
    requires InSpan(g) && InSpan(Next(g))
    ensures ToJalali(Next(g)) == NextJalali(ToJalali(g))
  {
    hide NowruzDay, Encode, IsLeapYear, ToJalali, OffsetFromNowruz, NextJalali, Next;
    var j, k := ToJalali(g), ToJalali(Next(g));
    ToJalaliCorrect(g);
    ToJalaliCorrect(Next(g));
    EncodeNext(g);
    NextJalaliDayNumber(j);
    NextStaysSupported(j, k);
    DayNumberDetermines(k, NextJalali(j));
  }

  // ----- Where the calendar stands

  /** A year has six months of 31 days, five of 30 and one of 29, or 30 in a leap year, each beginning where the one before
      ends. */
  lemma MonthSpacing(year: int, month: int)
    requires Supported(year) && 1 <= month <= 12
    ensures IsValidJalali(JalaliDate(year, month, 1))
    ensures month < 12 ==>
              IsValidJalali(JalaliDate(year, month + 1, 1))
              && Encode(ToGregorian(JalaliDate(year, month + 1, 1))) - Encode(ToGregorian(JalaliDate(year, month, 1)))
                 == if month <= 6 then 31 else 30
    ensures month == 12 && Supported(year + 1) ==>
              Encode(ToGregorian(JalaliDate(year + 1, 1, 1))) - Encode(ToGregorian(JalaliDate(year, 12, 1)))
              == if IsLeapYear(year) then 30 else 29
  {
    hide NowruzDay, Encode, IsLeapYear, ToGregorian, InSpan;
    ToGregorianCorrect(JalaliDate(year, month, 1));
    OffsetIs(month, 1);
    if month < 12 {
      ToGregorianCorrect(JalaliDate(year, month + 1, 1));
      OffsetIs(month + 1, 1);
    } else if Supported(year + 1) {
      ToGregorianCorrect(JalaliDate(year + 1, 1, 1));
      OffsetIs(1, 1);
      NowruzSpacing(year);
    }
  }

  /** The number of the first day of a year between 1210 and 1634. */
  lemma NowruzNowadays(year: int)
    requires 1210 <= year < 1635
    ensures var n := year - 1210;
            NowruzDay(year) == 365 * year + 8 * (n / 33) + (n % 33 + 3) / 4 + 1948248
  {
    hide LeapsBefore, LeapsWithin, NowruzDay, LeapCount;
    var n := year - 1210;
    CountsAtBreaks();
    MiddleTable(10);
    JumpIs(10);
    AtStretch(year, 10, n);
    CountAt(n, n / 33, n % 33, Jump(10));
    NowruzIs(year);
  }

  /** The number of a Gregorian day from March on. */
  lemma EncodeNowadays(g: Date)
    requires Valid(g) && g.month >= 3 && g.year >= 0
    ensures var a := g.year + 100100;
            Encode(g) == 1461 * a / 4 - a / 100 * 3 / 4 + (153 * (g.month - 3) + 2) / 5 + g.day - 34839656
  {
    EncodeIs(g);
  }

  lemma DayIs(j: JalaliDate, g: Date)
    requires 1210 <= j.year < 1635 && IsValidJalali(j) && Valid(g) && g.month >= 3 && g.year >= 0
    requires var n, a := j.year - 1210, g.year + 100100;
             365 * j.year + 8 * (n / 33) + (n % 33 + 3) / 4 + 1948248
             + (if j.month <= 6 then (j.month - 1) * 31 else 186 + (j.month - 7) * 30) + j.day - 1
             == 1461 * a / 4 - a / 100 * 3 / 4 + (153 * (g.month - 3) + 2) / 5 + g.day - 34839656
    ensures ToGregorian(j) == g && ToJalali(g) == j
  {
    hide NowruzDay, Encode, IsLeapYear, InSpan, ToJalali, FromDayNumber;
    NowruzNowadays(j.year);
    OffsetIs(j.month, j.day);
    EncodeNowadays(g);
    DecodeEncode(g);
    JalaliRoundTrip(j);
  }

  /** Days whose dates are known in both calendars: the formulas do not only agree with one another. */
  lemma KnownNowruz()
    ensures ToGregorian(JalaliDate(1404, 1, 1)) == Date(2025, 3, 21) && ToJalali(Date(2025, 3, 21)) == JalaliDate(1404, 1, 1)
    ensures ToGregorian(JalaliDate(1403, 1, 1)) == Date(2024, 3, 20) && ToJalali(Date(2024, 3, 20)) == JalaliDate(1403, 1, 1)
  {
    hide IsLeapYear, ToGregorian, ToJalali, IsLeap, NowruzDay, Encode, FromDayNumber, Div, Mod, LeapCount, InSpan;
    DayIs(JalaliDate(1404, 1, 1), Date(2025, 3, 21));
    DayIs(JalaliDate(1403, 1, 1), Date(2024, 3, 20));
  }

  lemma KnownDays()
    ensures ToGregorian(JalaliDate(1405, 12, 29)) == Date(2027, 3, 20) && ToJalali(Date(2027, 3, 20)) == JalaliDate(1405, 12, 29)
    ensures ToGregorian(JalaliDate(1403, 5, 12)) == Date(2024, 8, 2) && ToJalali(Date(2024, 8, 2)) == JalaliDate(1403, 5, 12)
  {
    hide IsLeapYear, ToGregorian, ToJalali, IsLeap, NowruzDay, Encode, FromDayNumber, Div, Mod, LeapCount, InSpan;
    DayIs(JalaliDate(1405, 12, 29), Date(2027, 3, 20));
    DayIs(JalaliDate(1403, 5, 12), Date(2024, 8, 2));
  }
}
