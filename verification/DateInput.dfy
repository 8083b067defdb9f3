/** Jalali dates in form fields (web/src/lib/format/dateInput.ts) and ISO dates on the wire (jalali.ts). */
module DateInput {
  import opened Wrappers
  import opened Numerals
  import opened MoneyText
  import opened JalaliCycle
  import opened GregorianDays
  import opened JalaliCalendar

  // ----- ISO dates

  /** `YYYY-MM-DD`; in the supported span the year has at most four digits. */
  function ToIsoDate(g: Date): string
    requires Valid(g) && g.year >= 0
  {
    PadStart(Digits(g.year), 4) + "-" + PadStart(Digits(g.month), 2) + "-" + PadStart(Digits(g.day), 2)
  }

  /** Reads the first ten characters; a date that does not exist is refused, and so is a year below 100,
      which the platform's Date would take for a year of the twentieth century. */
  function FromIsoDate(iso: string): Option<Date> {
    if |iso| < 10 || !AllLatin(iso[..4]) || iso[4] != '-' || !AllLatin(iso[5..7]) || iso[7] != '-' || !AllLatin(iso[8..10])
    then None
    else
      var g := Date(Value(iso[..4]), Value(iso[5..7]), Value(iso[8..10]));
      if g.year >= 100 && Valid(g) then Some(g) else None
  }

  // ----- The field

  /** Persian and Arabic-Indic digits become Latin; every other character stays. */
  function Latin(s: string): (t: string)
    ensures |t| == |s|
    ensures forall i :: 0 <= i < |s| ==> t[i] == if DigitValue(s[i]) >= 0 then LatinDigit(DigitValue(s[i])) else s[i]
  {
    seq(|s|, i requires 0 <= i < |s| => if DigitValue(s[i]) >= 0 then LatinDigit(DigitValue(s[i])) else s[i])
  }

  method ToLatinDigits(input: string) returns (out: string)
    ensures out == Latin(input)
  {
    out := "";
    for i := 0 to |input|
      invariant out == Latin(input[..i])
    {
      var v := DigitValue(input[i]);
      var ch := if v >= 0 then LatinDigit(v) else input[i];
      assert Latin(input[..i + 1]) == Latin(input[..i]) + [ch];
      out := out + [ch];
    }
    assert input[..|input|] == input;
  }

  /** The length of the run of digits at the start. */
  function RunLength(s: string): (n: nat)
    ensures n <= |s| && AllLatin(s[..n])
    ensures n < |s| ==> !IsLatin(s[n])
  {
    if s != "" && IsLatin(s[0]) then
      assert forall i :: 0 < i < 1 + RunLength(s[1..]) ==> s[i] == s[1..][i - 1];
      1 + RunLength(s[1..])
    else 0
  }

  /** The runs of digits, in order. */
  function Parts(s: string): (parts: seq<string>)
    ensures forall k :: 0 <= k < |parts| ==> parts[k] != "" && AllLatin(parts[k])
  {
    if s == "" then []
    else if IsLatin(s[0]) then
      var n := RunLength(s);
      assert n > 0;
      [s[..n]] + Parts(s[n..])
    else Parts(s[1..])
  }

  function ParseParts(year: string, month: string, day: string): Option<string>
    requires AllLatin(year) && AllLatin(month) && AllLatin(day)
  {
    var j := JalaliDate(Value(year), Value(month), Value(day));
    if !Supported(j.year) || !IsValidJalali(j) then None
    else
      ToGregorianCorrect(j);
      SpanYears(ToGregorian(j));
      Some(ToIsoDate(ToGregorian(j)))
  }

  function ParseJalali(input: string): Option<string> {
    var cleaned := Trim(input);
    if cleaned == "" then None
    else
      var parts := Parts(Latin(cleaned));
      if |parts| == 3 then ParseParts(parts[0], parts[1], parts[2])
      else
        var digits := LatinOnly(Latin(cleaned));
        if |digits| != 8 then None else ParseParts(digits[..4], digits[4..6], digits[6..8])
  }

  method ParseJalaliInput(input: string) returns (iso: Option<string>)
    ensures iso == ParseJalali(input)
  {
    var cleaned := Trim(input);
    if cleaned == "" {
      return None;
    }
    var latin := ToLatinDigits(cleaned);
    var parts := Parts(latin);
    if |parts| == 3 {
      iso := ParseParts(parts[0], parts[1], parts[2]);
    } else {
      var digits := LatinDigitsOnly(latin);
      if |digits| != 8 {
        return None;
      }
      iso := ParseParts(digits[..4], digits[4..6], digits[6..8]);
    }
  }

  function FieldText(j: JalaliDate): string
    requires j.month >= 0 && j.day >= 0
  {
    Decimal(j.year) + "/" + PadStart(Digits(j.month), 2) + "/" + PadStart(Digits(j.day), 2)
  }

  /** What the field shows for an ISO date of the supported span. */
  function FormatJalali(iso: string): string
    requires FromIsoDate(iso).Some? ==> InSpan(FromIsoDate(iso).value)
  {
    var g := FromIsoDate(iso);
    if g.None? then ""
    else
      ToJalaliCorrect(g.value);
      Persian(FieldText(ToJalali(g.value)))
  }

  // ----- ISO text and back

  lemma TwoDigits(n: nat)
    requires n < 100
    ensures |PadStart(Digits(n), 2)| == 2 && AllLatin(PadStart(Digits(n), 2)) && Value(PadStart(Digits(n), 2)) == n
  {
    assert Power10(2) == 100 by {
      assert Power10(0) == 1 && Power10(1) == 10;
    }
    DigitsWidth(n, 2);
    ValueOfPadded(Digits(n), 2);
    ValueOfDigits(n);
  }

  lemma FourDigits(n: nat)
    requires n < 10000
    ensures |PadStart(Digits(n), 4)| == 4 && AllLatin(PadStart(Digits(n), 4)) && Value(PadStart(Digits(n), 4)) == n
  {
    assert Power10(4) == 10000 by {
      assert Power10(0) == 1 && Power10(1) == 10 && Power10(2) == 100 && Power10(3) == 1000;
    }
    DigitsWidth(n, 4);
    ValueOfPadded(Digits(n), 4);
    ValueOfDigits(n);
  }

  /** Reading an ISO date gives the date back. */
  lemma IsoRoundTrip(g: Date)
    requires Valid(g) && 100 <= g.year < 10000
    ensures FromIsoDate(ToIsoDate(g)) == Some(g)
  {
    FourDigits(g.year);
    TwoDigits(g.month);
    TwoDigits(g.day);
    var y, m, d := PadStart(Digits(g.year), 4), PadStart(Digits(g.month), 2), PadStart(Digits(g.day), 2);
    hide PadStart, Digits, Value;
    var iso := ToIsoDate(g);
    assert iso[..4] == y && iso[5..7] == m && iso[8..10] == d && iso[4] == '-' && iso[7] == '-';
  }

  lemma SpanIsFourDigits(g: Date)
    requires InSpan(g)
    ensures Valid(g) && 100 <= g.year < 10000
  {
    SpanYears(g);
  }

  // ----- The field's text and back

  lemma {:induction false} RunFirst(run: string, rest: string)
    requires AllLatin(run) && (rest == "" || !IsLatin(rest[0]))
    ensures RunLength(run + rest) == |run|
  {
    if run != "" {
      RunFirst(run[1..], rest);
      assert (run + rest)[1..] == run[1..] + rest;
    }
  }

  lemma PartsFirst(run: string, rest: string)
    requires run != "" && AllLatin(run) && (rest == "" || !IsLatin(rest[0]))
    ensures Parts(run + rest) == [run] + Parts(rest)
  {
    RunFirst(run, rest);
    assert (run + rest)[..|run|] == run && (run + rest)[|run|..] == rest;
  }

  lemma PartsSkip(ch: char, rest: string)
    requires !IsLatin(ch)
    ensures Parts([ch] + rest) == Parts(rest)
  {
  }

  lemma PartsOfOne(c: string)
    requires c != "" && AllLatin(c)
    ensures Parts(c) == [c]
  {
    assert c + "" == c;
    PartsFirst(c, "");
    assert Parts("") == [];
  }

  /** Three runs of digits between separators are read as these three. */
  lemma PartsOfThree(a: string, b: string, c: string)
    requires a != "" && b != "" && c != "" && AllLatin(a) && AllLatin(b) && AllLatin(c)
    ensures Parts(a + "/" + b + "/" + c) == [a, b, c]
  {
    hide Parts, AllLatin;
    PartsBefore(a, "/", b + ("/" + c));
    PartsBefore(b, "/", c);
    PartsOfOne(c);
    assert a + "/" + b + "/" + c == a + ("/" + (b + ("/" + c)));
  }

  lemma LatinPersian(s: string)
    requires forall i :: 0 <= i < |s| ==> IsLatin(s[i]) || s[i] == '/' || s[i] == '-'
    ensures Latin(Persian(s)) == s
  {
  }

  lemma FieldIsTrimmed(s: string)
    requires s != "" && forall i :: 0 <= i < |s| ==> IsLatin(s[i]) || s[i] == '/' || s[i] == '-'
    ensures Trim(Persian(s)) == Persian(s) && Persian(s) != ""
  {
  }

  lemma TextSplits(year: int, y: string, m: string, d: string)
    requires y != "" && m != "" && d != "" && AllLatin(y) && AllLatin(m) && AllLatin(d)
    ensures var text := Signed(year, y) + "/" + m + "/" + d;
            Trim(Persian(text)) == Persian(text) && Persian(text) != "" && Parts(Latin(Persian(text))) == [y, m, d]
  {
    hide Parts, Latin, Persian, Trim;
    var plain := y + "/" + m + "/" + d;
    var text := Signed(year, y) + "/" + m + "/" + d;
    assert text == if year < 0 then ['-'] + plain else plain;
    LatinPersian(text);
    FieldIsTrimmed(text);
    PartsOfThree(y, m, d);
    PartsSkip('-', plain);
  }

  /** The parser reads the field's text as the magnitude of its year, its month and its day: a minus sign is lost. */
  lemma FieldParses(j: JalaliDate)
    requires 0 <= j.month < 100 && 0 <= j.day < 100
    ensures ParseJalali(Persian(FieldText(j)))
         == ParseParts(Digits(Magnitude(j.year)), PadStart(Digits(j.month), 2), PadStart(Digits(j.day), 2))
  {
    var y, m, d := Digits(Magnitude(j.year)), PadStart(Digits(j.month), 2), PadStart(Digits(j.day), 2);
    TwoDigits(j.month);
    TwoDigits(j.day);
    hide PadStart, Digits, ParseParts, Parts, Latin, Persian, Trim, Signed, Value, LatinOnly;
    TextSplits(j.year, y, m, d);
    assert FieldText(j) == Signed(j.year, y) + "/" + m + "/" + d;
    hide FieldText;
  }

  /** The date with the sign of its year dropped. */
  function Unsigned(j: JalaliDate): JalaliDate {
    j.(year := Magnitude(j.year))
  }

  lemma PartsValue(j: JalaliDate)
    requires 0 <= j.month < 100 && 0 <= j.day < 100
    ensures var u := Unsigned(j);
            ParseParts(Digits(Magnitude(j.year)), PadStart(Digits(j.month), 2), PadStart(Digits(j.day), 2))
            == if Supported(u.year) && IsValidJalali(u) then Some(ToIsoDate(ToGregorianInSpan(u))) else None
  {
    TwoDigits(j.month);
    TwoDigits(j.day);
    ValueOfDigits(Magnitude(j.year));
    hide PadStart, Digits, Value, ToGregorian, IsValidJalali;
  }

  function ToGregorianInSpan(j: JalaliDate): (g: Date)
    requires Supported(j.year) && IsValidJalali(j)
    ensures InSpan(g) && g == ToGregorian(j) && g.year >= 0
  {
    ToGregorianCorrect(j);
    SpanIsFourDigits(ToGregorian(j));
    ToGregorian(j)
  }

  lemma ValidRange(j: JalaliDate)
    requires IsValidJalali(j)
    ensures 1 <= j.month <= 12 && 1 <= j.day <= 31
  {
    hide IsLeapYear;
  }

  lemma InSpanJalali(g: Date)
    requires InSpan(g)
    ensures var j := ToJalali(g);
            IsValidJalali(j) && Supported(j.year) && ToGregorian(j) == g && 1 <= j.month <= 12 && 1 <= j.day <= 31
  {
    hide InSpan, ToJalali, ToGregorian, IsValidJalali;
    ToJalaliCorrect(g);
    GregorianRoundTrip(g);
    ValidRange(ToJalali(g));
  }

  lemma FormatIs(g: Date, j: JalaliDate)
    requires InSpan(g) && j == ToJalali(g) && 1 <= j.month <= 12 && 1 <= j.day <= 31
    ensures Valid(g) && 100 <= g.year && FromIsoDate(ToIsoDate(g)) == Some(g)
    ensures FormatJalali(ToIsoDate(g)) == Persian(FieldText(j))
  {
    hide InSpan, ToJalali, ToIsoDate, FromIsoDate, FieldText;
    SpanIsFourDigits(g);
    IsoRoundTrip(g);
  }

  /** For every date of the supported span: what the field shows parses back to the same date exactly when
      its Jalali year is not negative. */
  lemma FieldRoundTripIff(g: Date)
    requires InSpan(g)
    ensures g.year >= 100 && FromIsoDate(ToIsoDate(g)) == Some(g)
    ensures ParseJalali(FormatJalali(ToIsoDate(g))) == Some(ToIsoDate(g)) <==> ToJalali(g).year >= 0
  {
    hide InSpan, ToJalali, ToGregorian, IsValidJalali, FromIsoDate, FormatJalali, ParseJalali;
    var j := ToJalali(g);
    InSpanJalali(g);
    FormatIs(g, j);
    FieldParses(j);
    PartsValue(j);
    hide FieldText, ToIsoDate, PadStart, ParseParts;
    UnsignedIsAnother(g, j);
  }

  /** Without the sign of a negative year the text is that of another date, if of any. */
  lemma UnsignedIsAnother(g: Date, j: JalaliDate)
    requires InSpan(g) && g.year >= 0 && IsValidJalali(j) && Supported(j.year) && ToGregorian(j) == g
    ensures var u := Unsigned(j);
            Supported(u.year) && IsValidJalali(u) && ToIsoDate(ToGregorianInSpan(u)) == ToIsoDate(g) <==> j.year >= 0
  {
    hide ToGregorian, IsValidJalali, InSpan, ToIsoDate, ToJalali;
    SpanIsFourDigits(g);
    IsoRoundTrip(g);
    JalaliRoundTrip(j);
    var u := Unsigned(j);
    if j.year < 0 && Supported(u.year) && IsValidJalali(u) {
      var h := ToGregorianInSpan(u);
      SpanIsFourDigits(h);
      IsoRoundTrip(h);
      JalaliRoundTrip(u);
    }
  }

  // ----- Every way of writing a date

  ghost predicate NoDigits(s: string) {
    forall i :: 0 <= i < |s| ==> !IsLatin(s[i])
  }

  lemma {:induction false} PartsAfter(sep: string, rest: string)
    requires NoDigits(sep)
    ensures Parts(sep + rest) == Parts(rest)
  {
    if sep == "" {
      assert sep + rest == rest;
    } else {
      PartsAfter(sep[1..], rest);
      assert sep + rest == [sep[0]] + (sep[1..] + rest);
      PartsSkip(sep[0], sep[1..] + rest);
    }
  }

  lemma PartsBefore(run: string, sep: string, rest: string)
    requires run != "" && AllLatin(run) && sep != "" && NoDigits(sep)
    ensures Parts(run + (sep + rest)) == [run] + Parts(rest)
  {
    PartsFirst(run, sep + rest);
    PartsAfter(sep, rest);
  }

  /** What a date is read as: the ISO text of its day, if there is such a day. */
  function ReadAs(j: JalaliDate): Option<string> {
    if Supported(j.year) && IsValidJalali(j) then Some(ToIsoDate(ToGregorianInSpan(j))) else None
  }

  /** Three runs of digits in any script, with anything but digits between them, are read as year, month and day, with or
      without leading zeros. */
  lemma ThreeRunsParse(text: string, year: string, sep: string, month: string, other: string, day: string)
    requires year != "" && month != "" && day != "" && AllLatin(year) && AllLatin(month) && AllLatin(day)
    requires sep != "" && other != "" && NoDigits(sep) && NoDigits(other)
    requires Latin(Trim(text)) == year + (sep + (month + (other + day)))
    ensures ParseJalali(text) == ReadAs(JalaliDate(Value(year), Value(month), Value(day)))
  {
    PartsBefore(year, sep, month + (other + day));
    PartsBefore(month, other, day);
    PartsOfOne(day);
    hide Parts, Trim, Latin, Value, ToGregorian, IsValidJalali, ToIsoDate;
    assert Trim(text) != "";
  }

  lemma LatinStays(s: string)
    requires s != "" && forall i :: 0 <= i < |s| ==> IsLatin(s[i]) || s[i] == '/' || s[i] == '-'
    ensures Latin(s) == s && Trim(s) == s
  {
  }

  /** The eight digits of a date: four of the year, two of the month, two of the day. */
  function Compact(j: JalaliDate): string
    requires j.year >= 0 && j.month >= 0 && j.day >= 0
  {
    PadStart(Digits(j.year), 4) + PadStart(Digits(j.month), 2) + PadStart(Digits(j.day), 2)
  }

  lemma EightDigits(text: string, y: string, m: string, d: string)
    requires |y| == 4 && |m| == 2 && |d| == 2 && AllLatin(y) && AllLatin(m) && AllLatin(d)
    requires Latin(Trim(text)) == y + m + d
    ensures ParseJalali(text) == ParseParts(y, m, d)
  {
    var c := y + m + d;
    PartsOfOne(c);
    LatinOfLatin(c);
    assert c[..4] == y && c[4..6] == m && c[6..8] == d;
    hide Parts, Trim, Latin, LatinOnly, ParseParts;
    assert Trim(text) != "";
  }

  lemma PartsReadAs(j: JalaliDate, y: string, m: string, d: string)
    requires AllLatin(y) && AllLatin(m) && AllLatin(d)
    requires Value(y) == j.year && Value(m) == j.month && Value(d) == j.day
    ensures ParseParts(y, m, d) == ReadAs(j)
  {
    hide Value, ToGregorian, IsValidJalali, ToIsoDate;
  }

  lemma CompactParses(j: JalaliDate)
    requires 0 <= j.year < 10000 && 0 <= j.month < 100 && 0 <= j.day < 100
    ensures ParseJalali(Compact(j)) == ReadAs(j) && ParseJalali(Persian(Compact(j))) == ReadAs(j)
  {
    hide PadStart, Digits, ParseParts, Parts, Latin, Persian, Trim, Value, LatinOnly, ParseJalali, ReadAs;
    var y, m, d := PadStart(Digits(j.year), 4), PadStart(Digits(j.month), 2), PadStart(Digits(j.day), 2);
    FourDigits(j.year);
    TwoDigits(j.month);
    TwoDigits(j.day);
    PartsReadAs(j, y, m, d);
    var c := Compact(j);
    LatinStays(c);
    LatinPersian(c);
    FieldIsTrimmed(c);
    EightDigits(c, y, m, d);
    EightDigits(Persian(c), y, m, d);
  }

  lemma FieldTextIs(j: JalaliDate, y: string, m: string, d: string)
    requires j.year >= 0 && j.month >= 0 && j.day >= 0
    requires y == Digits(j.year) && m == PadStart(Digits(j.month), 2) && d == PadStart(Digits(j.day), 2)
    ensures FieldText(j) == y + ("/" + (m + ("/" + d)))
    ensures y != "" && m != "" && d != "" && AllLatin(y) && AllLatin(m) && AllLatin(d)
    ensures forall i :: 0 <= i < |FieldText(j)| ==> IsLatin(FieldText(j)[i]) || FieldText(j)[i] == '/'
  {
    hide PadStart, Digits;
  }

  lemma SlashedParses(j: JalaliDate)
    requires 0 <= j.year && 0 <= j.month < 100 && 0 <= j.day < 100
    ensures ParseJalali(FieldText(j)) == ReadAs(j) && ParseJalali(Persian(FieldText(j))) == ReadAs(j)
  {
    hide PadStart, Digits, ParseParts, Parts, Latin, Persian, Trim, Value, LatinOnly, ParseJalali, ReadAs, FieldText, AllLatin;
    var y, m, d := Digits(j.year), PadStart(Digits(j.month), 2), PadStart(Digits(j.day), 2);
    ValueOfDigits(j.year);
    TwoDigits(j.month);
    TwoDigits(j.day);
    FieldTextIs(j, y, m, d);
    var text := FieldText(j);
    LatinStays(text);
    LatinPersian(text);
    FieldIsTrimmed(text);
    ThreeRunsParse(text, y, "/", m, "/", d);
    ThreeRunsParse(Persian(text), y, "/", m, "/", d);
  }

  /** The compact and the slashed text of a date, in Latin or Persian digits, are all answered by the ISO text of its day;
      and by nothing if there is no such date. */
  lemma CompactAndSlashedParse(j: JalaliDate)
    requires 0 <= j.year < 10000 && 0 <= j.month < 100 && 0 <= j.day < 100
    ensures Supported(j.year) && IsValidJalali(j) ==>
              && ParseJalali(Compact(j)) == ParseJalali(Persian(Compact(j))) == Some(ToIsoDate(ToGregorianInSpan(j)))
              && ParseJalali(FieldText(j)) == ParseJalali(Persian(FieldText(j))) == Some(ToIsoDate(ToGregorianInSpan(j)))
    ensures !(Supported(j.year) && IsValidJalali(j)) ==>
              && ParseJalali(Compact(j)) == ParseJalali(Persian(Compact(j))) == None
              && ParseJalali(FieldText(j)) == ParseJalali(Persian(FieldText(j))) == None
  {
    hide ParseJalali, Compact, FieldText, Persian, IsValidJalali, ToIsoDate, ToGregorian;
    CompactParses(j);
    SlashedParses(j);
  }

  /** Whatever is typed, the answer is nothing or the ISO text of a valid supported date. */
  lemma AnswersADate(text: string) returns (j: JalaliDate)
    requires ParseJalali(text).Some?
    ensures Supported(j.year) && j.year >= 0 && IsValidJalali(j) && ParseJalali(text) == Some(ToIsoDate(ToGregorianInSpan(j)))
  {
    var latin := Latin(Trim(text));
    var parts := Parts(latin);
    var digits := LatinOnly(latin);
    if |parts| == 3 {
      j := JalaliDate(Value(parts[0]), Value(parts[1]), Value(parts[2]));
      PartsReadAs(j, parts[0], parts[1], parts[2]);
    } else {
      j := JalaliDate(Value(digits[..4]), Value(digits[4..6]), Value(digits[6..8]));
      PartsReadAs(j, digits[..4], digits[4..6], digits[6..8]);
    }
    hide Parts, Trim, Latin, Value, ToGregorian, IsValidJalali, ToIsoDate, LatinOnly, ParseParts;
  }

  // ----- What an ISO text says

  /** An ISO text has the year in its first four places, the month in the next two after a dash, the day in the last. */
  lemma IsoLayout(g: Date)
    requires Valid(g) && 0 <= g.year < 10000
    ensures var iso := ToIsoDate(g);
            && |iso| == 10 && iso[4] == '-' && iso[7] == '-'
            && AllLatin(iso[..4]) && Value(iso[..4]) == g.year
            && AllLatin(iso[5..7]) && Value(iso[5..7]) == g.month
            && AllLatin(iso[8..]) && Value(iso[8..]) == g.day
  {
    hide PadStart, Digits, Value;
    FourDigits(g.year);
    TwoDigits(g.month);
    TwoDigits(g.day);
    var y, m, d := PadStart(Digits(g.year), 4), PadStart(Digits(g.month), 2), PadStart(Digits(g.day), 2);
    var iso := ToIsoDate(g);
    assert iso[..4] == y && iso[5..7] == m && iso[8..] == d;
  }

  lemma {:induction false} SameValueSameText(a: string, b: string)
    requires AllLatin(a) && AllLatin(b) && |a| == |b| && Value(a) == Value(b)
    ensures a == b
  {
    if a != "" {
      var last := |a| - 1;
      assert DigitValue(a[last]) == DigitValue(b[last]);
      SameValueSameText(a[..last], b[..last]);
    }
  }

  /** A text is read as a date if and only if it begins with the ISO text of that date, which exists and has a year from 100
      on. */
  lemma IsoReadsIff(iso: string, g: Date)
    requires g.year < 10000
    ensures FromIsoDate(iso) == Some(g) <==> |iso| >= 10 && Valid(g) && g.year >= 100 && iso[..10] == ToIsoDate(g)
  {
    hide ToIsoDate, Value;
    if Valid(g) && g.year >= 100 {
      IsoLayout(g);
      var text := ToIsoDate(g);
      if |iso| >= 10 && iso[..10] == text {
        assert iso[..4] == text[..4] && iso[5..7] == text[5..7] && iso[8..10] == text[8..];
        assert iso[4] == text[4] && iso[7] == text[7];
      }
      if FromIsoDate(iso) == Some(g) {
        SameValueSameText(iso[..4], text[..4]);
        SameValueSameText(iso[5..7], text[5..7]);
        SameValueSameText(iso[8..10], text[8..]);
        assert iso[..10] == iso[..4] + [iso[4]] + iso[5..7] + [iso[7]] + iso[8..10];
        assert text == text[..4] + [text[4]] + text[5..7] + [text[7]] + text[8..];
      }
    }
  }

  /** The documented example: the twelfth of Mordad 1403, compact or slashed. */
  lemma KnownText()
    ensures ParseJalali("14030512") == Some("2024-08-02") && ParseJalali("1403/05/12") == Some("2024-08-02")
  {
    var j, g := JalaliDate(1403, 5, 12), Date(2024, 8, 2);
    hide ParseJalali, ToGregorian, ToJalali;
    KnownDays();
    KnownDigits();
    assert IsValidJalali(j) by {
      hide IsLeapYear;
    }
    CompactAndSlashedParse(j);
  }

  lemma OneDigit(v: nat)
    requires v < 10
    ensures Digits(v) == [LatinDigit(v)] && PadStart(Digits(v), 2) == "0" + [LatinDigit(v)]
  {
  }

  lemma OneMoreDigit(n: nat, v: nat)
    requires 0 < n && v < 10
    ensures Digits(10 * n + v) == Digits(n) + [LatinDigit(v)]
  {
  }

  lemma KnownDigits()
    ensures Compact(JalaliDate(1403, 5, 12)) == "14030512" && FieldText(JalaliDate(1403, 5, 12)) == "1403/05/12"
    ensures ToIsoDate(Date(2024, 8, 2)) == "2024-08-02"
  {
    hide Digits;
    OneDigit(1);
    OneDigit(2);
    OneDigit(5);
    OneDigit(8);
    OneMoreDigit(1, 2);
    OneMoreDigit(1, 4);
    OneMoreDigit(14, 0);
    OneMoreDigit(140, 3);
    OneMoreDigit(2, 0);
    OneMoreDigit(20, 2);
    OneMoreDigit(202, 4);
  }
}
