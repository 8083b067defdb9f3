/** Decimal numerals as text, in the three digit scripts (web/src/lib/format/digits.ts). */
module Numerals {

  const LATIN_ZERO: int := 0x30
  const ARABIC_ZERO: int := 0x660
  const PERSIAN_ZERO: int := 0x6F0

  predicate IsLatin(ch: char) {
    '0' <= ch <= '9'
  }

  /** The value of a digit in any of the three scripts; -1 for any other character. */
  function DigitValue(ch: char): (v: int)
    ensures -1 <= v <= 9
    ensures IsLatin(ch) ==> v == ch as int - LATIN_ZERO
  {
    var code := ch as int;
    if LATIN_ZERO <= code <= LATIN_ZERO + 9 then code - LATIN_ZERO
    else if PERSIAN_ZERO <= code <= PERSIAN_ZERO + 9 then code - PERSIAN_ZERO
    else if ARABIC_ZERO <= code <= ARABIC_ZERO + 9 then code - ARABIC_ZERO
    else -1
  }

  function LatinDigit(v: int): (ch: char)
    requires 0 <= v <= 9
    ensures IsLatin(ch) && DigitValue(ch) == v
  {
    (v + LATIN_ZERO) as char
  }

  predicate AllLatin(s: string) {
    forall i :: 0 <= i < |s| ==> IsLatin(s[i])
  }

  // ----- Numbers and their numerals

  function Digits(n: nat): (s: string)
    ensures AllLatin(s) && s != []
  {
    if n < 10 then [LatinDigit(n)] else Digits(n / 10) + [LatinDigit(n % 10)]
  }

  function Value(s: string): (n: nat)
    requires AllLatin(s)
  {
    if s == [] then 0 else Value(s[..|s| - 1]) * 10 + DigitValue(s[|s| - 1])
  }

  lemma {:induction false} ValueOfDigits(n: nat)
    ensures Value(Digits(n)) == n
  {
    if n >= 10 {
      ValueOfDigits(n / 10);
      assert Digits(n)[..|Digits(n)| - 1] == Digits(n / 10);
    }
  }

  lemma {:induction false} LeadingZero(s: string)
    requires AllLatin(s)
    ensures AllLatin("0" + s) && Value("0" + s) == Value(s)
  {
    if s == [] {
      assert "0" + s == "0" && Value("0") == 0;
    } else {
      LeadingZero(s[..|s| - 1]);
      assert ("0" + s)[..|s|] == "0" + s[..|s| - 1];
    }
  }

  function PadStart(s: string, width: nat): (padded: string)
    ensures |padded| == if |s| < width then width else |s|
    ensures AllLatin(s) ==> AllLatin(padded)
    decreases width - |s|
  {
    if |s| >= width then s else PadStart("0" + s, width)
  }

  lemma {:induction false} ValueOfPadded(s: string, width: nat)
    requires AllLatin(s)
    ensures AllLatin(PadStart(s, width)) && Value(PadStart(s, width)) == Value(s)
    decreases width - |s|
  {
    if |s| < width {
      LeadingZero(s);
      ValueOfPadded("0" + s, width);
    }
  }

  /** A number below 10 to the k-th power has at most k digits. */
  lemma {:induction false} DigitsWidth(n: nat, k: nat)
    requires k > 0 && n < Power10(k)
    ensures |Digits(n)| <= k
  {
    if n >= 10 {
      assert k > 1 by {
        assert Power10(1) == 10 * Power10(0);
      }
      DigitsWidth(n / 10, k - 1);
    }
  }

  function Power10(k: nat): nat {
    if k == 0 then 1 else 10 * Power10(k - 1)
  }

  // ----- Scripts

  function PersianDigit(ch: char): char {
    if IsLatin(ch) then (ch as int - LATIN_ZERO + PERSIAN_ZERO) as char else ch
  }

  /** Replaces every Latin digit by its Persian counterpart. */
  function Persian(s: string): (t: string)
    ensures |t| == |s| && forall i :: 0 <= i < |s| ==> t[i] == PersianDigit(s[i])
  {
    seq(|s|, i requires 0 <= i < |s| => PersianDigit(s[i]))
  }

  method ToPersianDigits(input: string) returns (out: string)
    ensures out == Persian(input)
  {
    out := "";
    for i := 0 to |input|
      invariant out == Persian(input[..i])
    {
      assert Persian(input[..i + 1]) == Persian(input[..i]) + [PersianDigit(input[i])];
      out := out + [PersianDigit(input[i])];
    }
    assert input[..|input|] == input;
  }

  /** The digits of a text, in Latin script; everything else is dropped. */
  function LatinOnly(s: string): (t: string)
    ensures AllLatin(t)
  {
    if s == [] then []
    else
      var v := DigitValue(s[|s| - 1]);
      LatinOnly(s[..|s| - 1]) + if v >= 0 then [LatinDigit(v)] else []
  }

  method LatinDigitsOnly(input: string) returns (out: string)
    ensures out == LatinOnly(input)
  {
    out := "";
    for i := 0 to |input|
      invariant out == LatinOnly(input[..i])
    {
      assert input[..i + 1][..i] == input[..i];
      var v := DigitValue(input[i]);
      if v >= 0 {
        out := out + [LatinDigit(v)];
      }
    }
    assert input[..|input|] == input;
  }

  lemma {:induction false} LatinOnlyAppend(a: string, b: string)
    ensures LatinOnly(a + b) == LatinOnly(a) + LatinOnly(b)
  {
    if b == [] {
      assert a + b == a;
    } else {
      LatinOnlyAppend(a, b[..|b| - 1]);
      assert (a + b)[..|a + b| - 1] == a + b[..|b| - 1];
    }
  }

  /** Reading the digits back undoes the Persian script. */
  lemma {:induction false} LatinOfPersian(s: string)
    ensures LatinOnly(Persian(s)) == LatinOnly(s)
  {
    if s != [] {
      LatinOfPersian(s[..|s| - 1]);
      assert Persian(s)[..|s| - 1] == Persian(s[..|s| - 1]);
    }
  }

  lemma {:induction false} LatinOfLatin(s: string)
    requires AllLatin(s)
    ensures LatinOnly(s) == s
  {
    if s != [] {
      LatinOfLatin(s[..|s| - 1]);
    }
  }

  /** The three scripts by their code points: each digit reads as its value and is written in Persian as U+06F0 and on. */
  lemma ScriptsByCode(v: int)
    requires 0 <= v <= 9
    ensures DigitValue((0x30 + v) as char) == DigitValue((0x660 + v) as char) == DigitValue((0x6F0 + v) as char) == v
    ensures LatinDigit(v) as int == 0x30 + v && PersianDigit((0x30 + v) as char) as int == 0x6F0 + v
    ensures LatinOnly([(0x660 + v) as char, 'x', (0x6F0 + v) as char]) == [LatinDigit(v), LatinDigit(v)]
  {
    var text := [(0x660 + v) as char, 'x', (0x6F0 + v) as char];
    assert text[..2] == [(0x660 + v) as char, 'x'] && text[..2][..1] == [(0x660 + v) as char] && text[..1][..0] == [];
    assert LatinOnly(text[..1]) == [LatinDigit(v)];
    assert LatinOnly(text[..2]) == LatinOnly(text[..1]);
  }
}
