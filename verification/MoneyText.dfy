/** Printing and parsing amounts (web/src/lib/format/money.ts on top of digits.ts). */
module MoneyText {
  import opened Wrappers
  import opened Numerals

  const SEPARATOR: char := '\U{066C}'
  const LEFT_TO_RIGHT_ISOLATE: char := '\U{2066}'
  const POP_ISOLATE: char := '\U{2069}'
  const UNICODE_MINUS: char := '\U{2212}'

  // ----- Printing

  /** Groups of three digits, counted from the right. */
  function Grouped(digits: string): string {
    if |digits| <= 3 then digits
    else
      var n := |digits| - 3;
      Grouped(digits[..n]) + [SEPARATOR] + digits[n..]
  }

  /** What goes after a digit of which `remaining` are left, itself included. */
  function Gap(remaining: int): string {
    if remaining > 1 && (remaining - 1) % 3 == 0 then [SEPARATOR] else []
  }

  /** The text after the first `i` digits, going from left to right. */
  function GroupedUpTo(digits: string, i: nat): string
    requires i <= |digits|
  {
    if i == 0 then ""
    else
      GroupedUpTo(digits, i - 1) + [digits[i - 1]] + Gap(|digits| - (i - 1))
  }

  lemma {:induction false} GroupedShort(digits: string, i: nat)
    requires i <= |digits| <= 3
    ensures GroupedUpTo(digits, i) == digits[..i]
  {
    if i > 0 {
      GroupedShort(digits, i - 1);
    }
  }

  /** Three more digits on the right shift the groups by one. */
  lemma {:induction false} GroupedLonger(digits: string, more: string, i: nat)
    requires |more| == 3 && i <= |digits|
    ensures GroupedUpTo(digits + more, i)
         == GroupedUpTo(digits, i) + if i > 0 && i == |digits| then [SEPARATOR] else []
  {
    if i > 0 {
      var last := i - 1;
      var longer := digits + more;
      GroupedLonger(digits, more, last);
      var remaining := |digits| - last;
      assert longer[last] == digits[last] && |longer| - last == remaining + 3;
      assert GroupedUpTo(longer, i) == GroupedUpTo(longer, last) + [digits[last]] + Gap(remaining + 3);
      assert GroupedUpTo(digits, i) == GroupedUpTo(digits, last) + [digits[last]] + Gap(remaining);
      hide GroupedUpTo;
      assert remaining > 1 ==> Gap(remaining + 3) == Gap(remaining);
    }
  }

  /** Grouping from the left with a count of what remains is grouping by threes from the right. */
  lemma {:induction false} GroupedBothWays(digits: string)
    ensures GroupedUpTo(digits, |digits|) == Grouped(digits)
  {
    if |digits| <= 3 {
      GroupedShort(digits, |digits|);
    } else {
      var n := |digits| - 3;
      var front, back := digits[..n], digits[n..];
      GroupedBothWays(front);
      GroupedLonger(front, back, n);
      assert digits == front + back;
      LastThree(digits, n);
      assert back == [back[0]] + [back[1]] + [back[2]];
      hide GroupedUpTo;
    }
  }

  lemma LastThree(digits: string, n: nat)
    requires |digits| == n + 3
    ensures GroupedUpTo(digits, n + 3) == GroupedUpTo(digits, n) + [digits[n]] + [digits[n + 1]] + [digits[n + 2]]
  {
    assert GroupedUpTo(digits, n + 1) == GroupedUpTo(digits, n) + [digits[n]] + Gap(3);
    assert GroupedUpTo(digits, n + 2) == GroupedUpTo(digits, n + 1) + [digits[n + 1]] + Gap(2);
    assert GroupedUpTo(digits, n + 3) == GroupedUpTo(digits, n + 2) + [digits[n + 2]] + Gap(1);
  }

  method GroupDigits(digits: string, persian: bool) returns (text: string)
    ensures text == if persian then Persian(Grouped(digits)) else Grouped(digits)
  {
    var out := "";
    for i := 0 to |digits|
      invariant out == GroupedUpTo(digits, i)
    {
      out := out + [digits[i]];
      var remaining := |digits| - i;
      if remaining > 1 && (remaining - 1) % 3 == 0 {
        out := out + [SEPARATOR];
      }
    }
    GroupedBothWays(digits);
    if persian {
      text := ToPersianDigits(out);
    } else {
      text := out;
    }
  }

  /** The canonical text of an integer. */
  function Decimal(x: int): string {
    Signed(x, Digits(Magnitude(x)))
  }

  function Magnitude(x: int): nat {
    if x < 0 then -x else x
  }

  function Signed(x: int, text: string): string {
    if x < 0 then "-" + text else text
  }

  function Printed(x: int): string {
    [LEFT_TO_RIGHT_ISOLATE] + Signed(x, Persian(Grouped(Digits(Magnitude(x))))) + [POP_ISOLATE]
  }

  method FormatToman(x: int) returns (text: string)
    ensures text == Printed(x)
  {
    var negative := x < 0;
    var grouped := GroupDigits(Digits(if negative then -x else x), true);
    text := ToPersianDigits(if negative then "-" + grouped else grouped);
    PersianTwice(Grouped(Digits(Magnitude(x))));
    assert Persian("-" + grouped) == "-" + Persian(grouped);
    text := [LEFT_TO_RIGHT_ISOLATE] + text + [POP_ISOLATE];
  }

  lemma PersianTwice(s: string)
    ensures Persian(Persian(s)) == Persian(s)
  {
  }

  // ----- Parsing

  predicate IsBidiControl(ch: char) {
    var code := ch as int;
    code == 0x200E || code == 0x200F || 0x2066 <= code <= 0x2069
  }

  function Stripped(s: string): string {
    if s == [] then []
    else Stripped(s[..|s| - 1]) + if IsBidiControl(s[|s| - 1]) then [] else [s[|s| - 1]]
  }

  method StripBidiControls(input: string) returns (out: string)
    ensures out == Stripped(input)
  {
    out := "";
    for i := 0 to |input|
      invariant out == Stripped(input[..i])
    {
      assert input[..i + 1][..i] == input[..i];
      if !IsBidiControl(input[i]) {
        out := out + [input[i]];
      }
    }
    assert input[..|input|] == input;
  }

  function PlainMinus(s: string): (t: string)
    ensures |t| == |s| && forall i :: 0 <= i < |s| ==> t[i] == if s[i] == UNICODE_MINUS then '-' else s[i]
  {
    seq(|s|, i requires 0 <= i < |s| => if s[i] == UNICODE_MINUS then '-' else s[i])
  }

  function Cleaned(s: string): string {
    PlainMinus(Stripped(s))
  }

  predicate IsSpace(ch: char) {
    var code := ch as int;
    || 0x09 <= code <= 0x0D || code == 0x20 || code == 0xA0 || code == 0x1680 || 0x2000 <= code <= 0x200A
    || code == 0x2028 || code == 0x2029 || code == 0x202F || code == 0x205F || code == 0x3000 || code == 0xFEFF
  }

  function TrimStart(s: string): string {
    if s != [] && IsSpace(s[0]) then TrimStart(s[1..]) else s
  }

  function TrimEnd(s: string): string {
    if s != [] && IsSpace(s[|s| - 1]) then TrimEnd(s[..|s| - 1]) else s
  }

  function Trim(s: string): string {
    TrimEnd(TrimStart(s))
  }

  predicate IsDigit(ch: char) {
    DigitValue(ch) >= 0
  }

  predicate InNumber(ch: char) {
    IsDigit(ch) || ch == SEPARATOR || ch == ',' || IsSpace(ch)
  }

  /** A digit, or a digit, then digits, separators and spaces, then a digit. */
  ghost predicate Numeral(s: string) {
    s != [] && IsDigit(s[0]) && IsDigit(s[|s| - 1]) && forall i :: 0 <= i < |s| ==> InNumber(s[i])
  }

  ghost predicate Allowed(s: string) {
    forall i :: 0 <= i < |s| ==> InNumber(s[i]) || s[i] == '+' || s[i] == '-'
  }

  ghost predicate StrictlyNumeric(input: string) {
    var trimmed := Trim(Cleaned(input));
    trimmed == "" || (Numeral(if trimmed[0] == '-' then trimmed[1..] else trimmed) && Allowed(trimmed))
  }

  function Normalized(input: string): Option<string> {
    var cleaned := Cleaned(input);
    var digits := LatinOnly(cleaned);
    if digits == "" then None else Some(if '-' in cleaned then "-" + digits else digits)
  }

  ghost function Parsed(input: string): Option<string> {
    if StrictlyNumeric(input) then Normalized(input) else None
  }

  method IsStrictlyNumeric(input: string) returns (ok: bool)
    ensures ok <==> StrictlyNumeric(input)
  {
    var stripped := StripBidiControls(input);
    var trimmed := Trim(PlainMinus(stripped));
    if trimmed == "" {
      return true;
    }
    var rest := if trimmed[0] == '-' then trimmed[1..] else trimmed;
    ok := rest != "" && IsDigit(rest[0]) && IsDigit(rest[|rest| - 1])
      && (forall i :: 0 <= i < |rest| ==> InNumber(rest[i]))
      && forall i :: 0 <= i < |trimmed| ==> InNumber(trimmed[i]) || trimmed[i] == '+' || trimmed[i] == '-';
  }

  method ParseToman(input: string) returns (amount: Option<string>)
    ensures amount == Parsed(input)
  {
    var strict := IsStrictlyNumeric(input);
    if !strict {
      return None;
    }
    var stripped := StripBidiControls(input);
    var cleaned := PlainMinus(stripped);
    var digits := LatinDigitsOnly(cleaned);
    if digits == "" {
      return None;
    }
    amount := Some(if '-' in cleaned then "-" + digits else digits);
  }

  // ----- Parsing undoes printing

  lemma NoDigit(ch: char)
    requires DigitValue(ch) < 0
    ensures LatinOnly([ch]) == ""
  {
    assert LatinOnly([]) == [];
  }

  lemma GroupJoin(a: string, b: string)
    requires AllLatin(b)
    ensures LatinOnly(a + [SEPARATOR] + b) == LatinOnly(a) + b
  {
    LatinOfLatin(b);
    NoDigit(SEPARATOR);
    LatinOnlyAppend(a, [SEPARATOR]);
    LatinOnlyAppend(a + [SEPARATOR], b);
    hide LatinOnly, AllLatin, DigitValue;
    assert LatinOnly(a) + "" == LatinOnly(a);
  }

  lemma {:induction false} GroupedDigits(digits: string)
    requires AllLatin(digits)
    ensures LatinOnly(Grouped(digits)) == digits
  {
    hide LatinOnly;
    if |digits| <= 3 {
      LatinOfLatin(digits);
    } else {
      var n := |digits| - 3;
      GroupedDigits(digits[..n]);
      GroupJoin(Grouped(digits[..n]), digits[n..]);
    }
  }

  /** Digits and separators only, a digit first and last. */
  ghost predicate GroupShaped(s: string) {
    && s != [] && IsLatin(s[0]) && IsLatin(s[|s| - 1])
    && forall i :: 0 <= i < |s| ==> IsLatin(s[i]) || s[i] == SEPARATOR
  }

  lemma {:induction false} GroupedShape(digits: string)
    requires AllLatin(digits) && digits != []
    ensures GroupShaped(Grouped(digits))
  {
    if |digits| > 3 {
      var n := |digits| - 3;
      GroupedShape(digits[..n]);
    }
  }

  /** The same with Persian digits. */
  ghost predicate PersianShaped(s: string) {
    && s != [] && IsDigit(s[0]) && IsDigit(s[|s| - 1])
    && forall i :: 0 <= i < |s| ==> IsDigit(s[i]) || s[i] == SEPARATOR
  }

  lemma PersianShape(s: string)
    requires GroupShaped(s)
    ensures PersianShaped(Persian(s))
  {
  }

  lemma DigitsArePlain(ch: char)
    requires IsDigit(ch) || ch == SEPARATOR || ch == '-'
    ensures !IsBidiControl(ch) && !IsSpace(ch) && ch != UNICODE_MINUS
    ensures IsDigit(ch) || ch == SEPARATOR ==> ch != '-'
  {
  }

  lemma {:induction false} StrippedPlain(s: string)
    requires forall i :: 0 <= i < |s| ==> !IsBidiControl(s[i])
    ensures Stripped(s) == s
  {
    if s != [] {
      StrippedPlain(s[..|s| - 1]);
    }
  }

  lemma {:induction false} StrippedAppend(a: string, b: string)
    ensures Stripped(a + b) == Stripped(a) + Stripped(b)
  {
    if b == [] {
      assert a + b == a;
    } else {
      StrippedAppend(a, b[..|b| - 1]);
      assert (a + b)[..|a + b| - 1] == a + b[..|b| - 1];
    }
  }

  lemma CleanedPlain(s: string)
    requires forall i :: 0 <= i < |s| ==> IsDigit(s[i]) || s[i] == SEPARATOR || s[i] == '-'
    ensures Cleaned([LEFT_TO_RIGHT_ISOLATE] + s + [POP_ISOLATE]) == s
  {
    forall i | 0 <= i < |s|
      ensures !IsBidiControl(s[i]) && s[i] != UNICODE_MINUS
    {
      DigitsArePlain(s[i]);
    }
    hide IsDigit;
    StrippedPlain(s);
    StrippedAppend([LEFT_TO_RIGHT_ISOLATE] + s, [POP_ISOLATE]);
    StrippedAppend([LEFT_TO_RIGHT_ISOLATE], s);
    assert Stripped([LEFT_TO_RIGHT_ISOLATE]) == [] && Stripped([POP_ISOLATE]) == [] by {
      assert Stripped([]) == [];
    }
    assert PlainMinus(s) == s;
  }

  lemma TrimNothing(s: string)
    requires s != [] && !IsSpace(s[0]) && !IsSpace(s[|s| - 1])
    ensures Trim(s) == s
  {
  }

  /** A signed Persian numeral passes the strict test and normalises to its Latin digits. */
  lemma SignedIsStrict(x: int, grouped: string)
    requires PersianShaped(grouped)
    ensures var body := Signed(x, grouped); Trim(body) == body && Numeral(grouped) && Allowed(body)
    ensures grouped[0] != '-'
  {
    var body := Signed(x, grouped);
    DigitsArePlain(body[0]);
    DigitsArePlain(grouped[0]);
    DigitsArePlain(body[|body| - 1]);
    TrimNothing(body);
    hide IsDigit, IsSpace;
    assert forall i :: 0 <= i < |body| ==> body[i] == '-' || InNumber(body[i]);
  }

  lemma SignedDigits(x: int, grouped: string)
    requires PersianShaped(grouped)
    ensures LatinOnly(Signed(x, grouped)) == LatinOnly(grouped)
    ensures '-' in Signed(x, grouped) <==> x < 0
  {
    assert LatinOnly("-") == [] by {
      assert LatinOnly([]) == [];
    }
    LatinOnlyAppend("-", grouped);
    forall i | 0 <= i < |grouped|
      ensures grouped[i] != '-'
    {
      DigitsArePlain(grouped[i]);
    }
  }

  /** Parsing a printed amount gives its canonical text: grouping, digit script, sign and isolates are all undone. */
  lemma ParseOfPrinted(x: int)
    ensures Parsed(Printed(x)) == Some(Decimal(x))
  {
    var digits := Digits(Magnitude(x));
    var grouped := Persian(Grouped(digits));
    var body := Signed(x, grouped);
    GroupedShape(digits);
    PersianShape(Grouped(digits));
    GroupedDigits(digits);
    LatinOfPersian(Grouped(digits));
    CleanedPlain(body);
    SignedIsStrict(x, grouped);
    SignedDigits(x, grouped);
    assert x < 0 ==> body[0] == '-' && body[1..] == grouped;
    hide Cleaned, Trim, Numeral, Allowed, LatinOnly, Persian, Grouped, Digits, PersianShaped, GroupShaped, AllLatin;
  }

  /** The integer that a parsed text stands for. */
  function IntegerOf(text: string): int
    requires text != "" && (AllLatin(text) || (text[0] == '-' && AllLatin(text[1..])))
  {
    if text[0] == '-' then 0 - Value(text[1..]) else Value(text)
  }

  lemma DecimalValue(x: int)
    ensures var text := Decimal(x);
            text != "" && (AllLatin(text) || (text[0] == '-' && AllLatin(text[1..]))) && IntegerOf(text) == x
  {
    ValueOfDigits(Magnitude(x));
    assert x < 0 ==> Decimal(x)[1..] == Digits(Magnitude(x));
  }

  /** No two amounts print alike. */
  lemma PrintedInjective(x: int, y: int)
    requires Printed(x) == Printed(y)
    ensures x == y
  {
    ParseOfPrinted(x);
    ParseOfPrinted(y);
    DecimalValue(x);
    DecimalValue(y);
  }

  /** The script of the digits makes no difference to what a text parses to. */
  lemma ScriptIrrelevant(s: string)
    ensures Normalized(Persian(s)) == Normalized(s)
  {
    CleanedPersian(s);
    LatinOfPersian(Cleaned(s));
    assert '-' in Cleaned(Persian(s)) <==> '-' in Cleaned(s) by {
      forall i | 0 <= i < |Cleaned(s)|
        ensures Persian(Cleaned(s))[i] == '-' <==> Cleaned(s)[i] == '-'
      {
      }
    }
  }

  lemma {:induction false} CleanedPersian(s: string)
    ensures Cleaned(Persian(s)) == Persian(Cleaned(s))
  {
    StrippedPersian(s);
  }

  lemma {:induction false} StrippedPersian(s: string)
    ensures Stripped(Persian(s)) == Persian(Stripped(s))
  {
    if s != [] {
      StrippedPersian(s[..|s| - 1]);
      assert Persian(s)[..|s| - 1] == Persian(s[..|s| - 1]);
    }
  }

  // ----- What a printed amount looks like

  lemma {:induction false} GroupedFromTheRight(digits: string, k: nat)
    requires AllLatin(digits) && k < |Grouped(digits)|
    ensures var text := Grouped(digits);
            if k % 4 == 3 then text[|text| - 1 - k] as int == 0x66C else IsLatin(text[|text| - 1 - k])
    ensures digits != [] ==> IsLatin(Grouped(digits)[0])
  {
    if |digits| > 3 {
      var n := |digits| - 3;
      var front := Grouped(digits[..n]);
      assert Grouped(digits) == front + [SEPARATOR] + digits[n..];
      if k >= 4 {
        GroupedFromTheRight(digits[..n], k - 4);
        assert Grouped(digits)[|Grouped(digits)| - 1 - k] == front[|front| - 1 - (k - 4)];
      }
      GroupedShape(digits[..n]);
    }
  }

  /** A printed amount stands between U+2066 and U+2069, has a minus in front exactly when it is negative, and is written in
      Persian digits with U+066C before each third digit from the right, and nothing else. */
  lemma PrintedLooksLike(x: int, k: nat)
    ensures var text := Printed(x);
            var first := if x < 0 then 2 else 1;
            && |text| >= first + 2
            && text[0] as int == 0x2066 && text[|text| - 1] as int == 0x2069
            && (x < 0 ==> text[1] == '-') && 0x6F0 <= text[first] as int <= 0x6F9
            && (k < |text| - 1 - first ==>
                  var ch := text[|text| - 2 - k] as int;
                  if k % 4 == 3 then ch == 0x66C else 0x6F0 <= ch <= 0x6F9)
  {
    hide Grouped, Digits, Persian, Signed, AllLatin;
    var digits := Digits(Magnitude(x));
    var grouped := Persian(Grouped(digits));
    PersianFromTheRight(digits, k);
    SignedPlaces(x, grouped, k);
    IsolatedPlaces(Signed(x, grouped), k);
  }

  lemma SignedPlaces(x: int, grouped: string, k: nat)
    requires grouped != ""
    ensures var body := Signed(x, grouped);
            && |body| == |grouped| + (if x < 0 then 1 else 0)
            && (x < 0 ==> body[0] == '-') && body[if x < 0 then 1 else 0] == grouped[0]
            && (k < |grouped| ==> body[|body| - 1 - k] == grouped[|grouped| - 1 - k])
  {
  }

  lemma IsolatedPlaces(body: string, k: nat)
    requires body != ""
    ensures var text := [LEFT_TO_RIGHT_ISOLATE] + body + [POP_ISOLATE];
            && |text| == |body| + 2 && text[0] == LEFT_TO_RIGHT_ISOLATE && text[|text| - 1] == POP_ISOLATE
            && text[1] == body[0] && (|body| > 1 ==> text[2] == body[1])
            && (k < |body| ==> text[|text| - 2 - k] == body[|body| - 1 - k])
  {
  }

  lemma PersianFromTheRight(digits: string, k: nat)
    requires AllLatin(digits) && digits != []
    ensures var text := Persian(Grouped(digits));
            && text != "" && 0x6F0 <= text[0] as int <= 0x6F9
            && (k < |text| ==>
                  var ch := text[|text| - 1 - k] as int;
                  if k % 4 == 3 then ch == 0x66C else 0x6F0 <= ch <= 0x6F9)
  {
    hide Grouped;
    GroupedShape(digits);
    var grouped := Grouped(digits);
    GroupedFromTheRight(digits, 0);
    if k < |grouped| {
      GroupedFromTheRight(digits, k);
    }
  }

  /** Exactly which typed texts are amounts, and which: without invisible marks and outer spaces, an optional minus and then
      digits of any script, with separators, commas and spaces between but not around them. */
  lemma ParsedIff(input: string)
    ensures var text := Trim(Cleaned(input));
            var negative := text != "" && text[0] == '-';
            var rest := if negative then text[1..] else text;
            var amount := rest != "" && DigitValue(rest[0]) >= 0 && DigitValue(rest[|rest| - 1]) >= 0
              && forall i :: 0 <= i < |rest| ==>
                   DigitValue(rest[i]) >= 0 || rest[i] as int == 0x66C || rest[i] == ',' || IsSpace(rest[i]);
            && (Parsed(input).Some? <==> amount)
            && (amount ==> Parsed(input) == Some(if negative then "-" + LatinOnly(rest) else LatinOnly(rest)))
  {
    var cleaned := Cleaned(input);
    var text := Trim(cleaned);
    TrimmedDigits(cleaned);
    if text != "" && text[0] == '-' {
      SignDropped(text);
    }
    if StrictlyNumeric(input) && text != "" {
      StrictMinus(text);
    }
    hide Cleaned, Trim, IsSpace, LatinOnly;
  }

  lemma SignDropped(text: string)
    requires text != "" && text[0] == '-'
    ensures LatinOnly(text) == LatinOnly(text[1..])
  {
    assert text == "-" + text[1..];
    LatinOnlyAppend("-", text[1..]);
    NoDigit('-');
  }

  /** Outer spaces hold no digits and no minus. */
  lemma TrimmedDigits(s: string)
    ensures LatinOnly(Trim(s)) == LatinOnly(s) && ('-' in Trim(s) <==> '-' in s)
    ensures Trim(s) == "" ==> LatinOnly(s) == ""
  {
    TrimStartDigits(s);
    TrimEndDigits(TrimStart(s));
    assert LatinOnly("") == "";
  }

  lemma SpaceIsNoDigit(ch: char)
    requires IsSpace(ch)
    ensures DigitValue(ch) < 0 && ch != '-'
  {
  }

  lemma {:induction false} TrimStartDigits(s: string)
    ensures LatinOnly(TrimStart(s)) == LatinOnly(s) && ('-' in TrimStart(s) <==> '-' in s)
  {
    if s != [] && IsSpace(s[0]) {
      TrimStartDigits(s[1..]);
      assert s == [s[0]] + s[1..];
      LatinOnlyAppend([s[0]], s[1..]);
      SpaceIsNoDigit(s[0]);
      NoDigit(s[0]);
    }
  }

  lemma {:induction false} TrimEndDigits(s: string)
    ensures LatinOnly(TrimEnd(s)) == LatinOnly(s) && ('-' in TrimEnd(s) <==> '-' in s)
  {
    if s != [] && IsSpace(s[|s| - 1]) {
      TrimEndDigits(s[..|s| - 1]);
      SpaceIsNoDigit(s[|s| - 1]);
      assert s == s[..|s| - 1] + [s[|s| - 1]];
    }
  }

  /** In a strictly numeric text a minus stands in front, if anywhere, and there is a digit. */
  lemma StrictMinus(text: string)
    requires text != "" && Numeral(if text[0] == '-' then text[1..] else text)
    ensures '-' in text <==> text[0] == '-'
    ensures LatinOnly(text) != ""
  {
    var rest := if text[0] == '-' then text[1..] else text;
    forall i | 0 <= i < |rest|
      ensures rest[i] != '-'
    {
      assert InNumber(rest[i]);
    }
    assert text[|text| - 1] == rest[|rest| - 1];
    hide IsSpace;
  }
}
