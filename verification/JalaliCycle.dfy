/** The leap cycle: break years, leap counts and the leap test. */
module JalaliCycle {
  import opened Truncated

  const LEAP_BREAKS: seq<int> := [
    -61, 9, 38, 199, 426, 686, 756, 818, 1111, 1181, 1210, 1635, 2060, 2097, 2192, 2262, 2324, 2394,
    2456, 3178]

  const MIN_YEAR := -61
  const MAX_YEAR := 3177

  datatype Info = Info(leap: int, jalaliYear: int, march: int)

  /** Leap years counted over a whole stretch of `jump` years. */
  function StretchLeaps(jump: int): int {
    Div(jump, 33) * 8 + Div(Mod(jump, 33), 4)
  }

  /** The leap count accumulated when the walk stands at break `k`. */
  function LeapsBefore(k: nat): int
    requires k < |LEAP_BREAKS|
  {
    if k == 0 then -14 else LeapsBefore(k - 1) + StretchLeaps(LEAP_BREAKS[k] - LEAP_BREAKS[k - 1])
  }

  /** The last break at or below `year`, searching from break `k` on. */
  function Segment(year: int, k: nat): (r: nat)
    requires k < |LEAP_BREAKS|
    ensures k <= r < |LEAP_BREAKS|
    ensures r + 1 < |LEAP_BREAKS| ==> year < LEAP_BREAKS[r + 1]
    ensures k == r || LEAP_BREAKS[r] <= year
    decreases |LEAP_BREAKS| - k
  {
    if k + 1 < |LEAP_BREAKS| && LEAP_BREAKS[k + 1] <= year then Segment(year, k + 1) else k
  }

  /** Length of the stretch that break `k` opens; past the last break the walk keeps the last length. */
  function Jump(k: nat): int
    requires k < |LEAP_BREAKS|
  {
    if k + 1 < |LEAP_BREAKS| then LEAP_BREAKS[k + 1] - LEAP_BREAKS[k] else LEAP_BREAKS[k] - LEAP_BREAKS[k - 1]
  }

  /** Leap years within a stretch of length `jump`, after `n` of its years. */
  function LeapsWithin(n: int, jump: int): int {
    Div(n, 33) * 8 + Div(Mod(n, 33) + 3, 4) + (if Mod(jump, 33) == 4 && jump - n == 4 then 1 else 0)
  }

  function LeapCount(year: int): int {
    var k := Segment(year, 0);
    LeapsBefore(k) + LeapsWithin(year - LEAP_BREAKS[k], Jump(k))
  }

  /** Position in the four-year rhythm: 0 marks a leap year. */
  function ResidueWithin(n: int, jump: int): int {
    var shifted := if jump - n < 6 then n - jump + Div(jump + 4, 33) * 33 else n;
    var leap := Mod(Mod(shifted + 1, 33) - 1, 4);
    if leap == -1 then 4 else leap
  }

  function Residue(year: int): int {
    var k := Segment(year, 0);
    ResidueWithin(year - LEAP_BREAKS[k], Jump(k))
  }

  function GregorianLeaps(gregorianYear: int): int {
    Div(gregorianYear, 4) - Div((Div(gregorianYear, 100) + 1) * 3, 4) - 150
  }

  function CalendarInfo(gregorianYear: int, wantLeap: bool): Info {
    var year := gregorianYear - 621;
    Info(
      if wantLeap then Residue(year) else 0,
      year,
      20 + LeapCount(year) - GregorianLeaps(gregorianYear))
  }

  predicate IsLeapYear(year: int) {
    Residue(year) == 0
  }

  lemma StartsAtEpoch()
    ensures LeapsBefore(0) == -14
  {
  }

  lemma NextBreak(k: nat, i: nat, jump: int)
    requires i == k + 1 < |LEAP_BREAKS| && jump == LEAP_BREAKS[i] - LEAP_BREAKS[k]
    ensures LeapsBefore(i) == LeapsBefore(k) + StretchLeaps(jump)
  {
  }

  /** The walk over the break years: stops at the last break at or below `year`. */
  method WalkBreaks(year: int) returns (leapCount: int, jump: int, prevBreak: int, ghost k: nat)
    ensures k < |LEAP_BREAKS| && prevBreak == LEAP_BREAKS[k]
    ensures k == 0 || prevBreak <= year
    ensures k + 1 < |LEAP_BREAKS| ==> year < LEAP_BREAKS[k + 1]
    ensures leapCount == LeapsBefore(k) && jump == Jump(k)
  {
    hide Div, Mod, LeapsBefore;
    StartsAtEpoch();
    leapCount, jump, prevBreak, k := -14, 0, LEAP_BREAKS[0], 0;
    for i := 1 to |LEAP_BREAKS|
      invariant k == i - 1 && prevBreak == LEAP_BREAKS[k]
      invariant k == 0 || prevBreak <= year
      invariant k == 0 || jump == LEAP_BREAKS[k] - LEAP_BREAKS[k - 1]
      invariant leapCount == LeapsBefore(k)
    {
      var nextBreak := LEAP_BREAKS[i];
      jump := nextBreak - prevBreak;
      if year < nextBreak {
        break;
      }
      NextBreak(k, i, jump);
      leapCount := leapCount + (Div(jump, 33) * 8 + Div(Mod(jump, 33), 4));
      prevBreak, k := nextBreak, i;
    }
  }

  lemma WalkFindsSegment(year: int, k: nat)
    requires k < |LEAP_BREAKS| && (k == 0 || LEAP_BREAKS[k] <= year)
    requires k + 1 < |LEAP_BREAKS| ==> year < LEAP_BREAKS[k + 1]
    ensures LeapCount(year) == LeapsBefore(k) + LeapsWithin(year - LEAP_BREAKS[k], Jump(k))
    ensures Residue(year) == ResidueWithin(year - LEAP_BREAKS[k], Jump(k))
  {
    hide LeapsWithin, ResidueWithin, Jump, LeapsBefore;
    SegmentIs(year, k, 0);
  }

  /** Leap status and Nowruz of the Jalali year overlapping a Gregorian year. */
  method JalaliCalendarInfo(gregorianYear: int, wantLeap: bool) returns (info: Info)
    ensures info == CalendarInfo(gregorianYear, wantLeap)
  {
    var year := gregorianYear - 621;
    var leapCount, jump, prevBreak, k := WalkBreaks(year);
    hide LeapCount, Residue, LeapsBefore, Jump, Segment, Div, Mod;
    WalkFindsSegment(year, k);
    var n := year - prevBreak;
    leapCount := leapCount + (Div(n, 33) * 8 + Div(Mod(n, 33) + 3, 4));
    if Mod(jump, 33) == 4 && jump - n == 4 {
      leapCount := leapCount + 1;
    }
    assert leapCount == LeapCount(year);
    var leapGregorian := Div(gregorianYear, 4) - Div((Div(gregorianYear, 100) + 1) * 3, 4) - 150;
    var march := 20 + leapCount - leapGregorian;
    var leap := 0;
    if wantLeap {
      if jump - n < 6 {
        n := n - jump + Div(jump + 4, 33) * 33;
      }
      leap := Mod(Mod(n + 1, 33) - 1, 4);
      if leap == -1 {
        leap := 4;
      }
      assert leap == Residue(year);
    }
    return Info(leap, year, march);
  }

  /** Every stretch between breaks is a number of whole 33-year cycles plus 4 or plus 29 years. */
  lemma JumpShape(k: nat)
    requires k < |LEAP_BREAKS|
    ensures Jump(k) >= 29 && (Jump(k) % 33 == 4 || Jump(k) % 33 == 29)
  {
  }

  /** The leap count inside a stretch, by whole cycles `q` and place `r` in the cycle. */
  lemma CountAt(n: nat, q: nat, r: nat, jump: nat)
    requires r < 33 && n == 33 * q + r
    ensures LeapsWithin(n, jump) == 8 * q + (r + 3) / 4 + if jump % 33 == 4 && jump - n == 4 then 1 else 0
  {
    QuotientIs(q, r, 33);
    assert Div(n, 33) == q && Mod(n, 33) == r;
    assert Div(r + 3, 4) == (r + 3) / 4 by {
      OnNat(r + 3, 4);
    }
    assert Mod(jump, 33) == jump % 33 by {
      OnNat(jump, 33);
    }
  }

  /** The leap test on a year whose (possibly shifted) place in the 33-year cycle is `r`. */
  lemma RhythmAt(n: nat, q: nat, r: nat)
    requires r < 33 && n == 33 * q + r
    ensures var leap := Mod(Mod(n + 1, 33) - 1, 4);
            (if leap == -1 then 4 else leap) == 0 <==> r % 4 == 0 && r != 32
  {
    QuotientIs(if r == 32 then q + 1 else q, if r == 32 then 0 else r + 1, 33);
    if r < 32 {
      OnNat(r, 4);
    }
  }

  lemma ShiftAt(c: nat, j: nat, jump: nat)
    requires (j == 4 || j == 29) && jump == 33 * c + j
    ensures Div(jump + 4, 33) == if j == 29 then c + 1 else c
  {
    OnNat(jump + 4, 33);
  }

  /** From one year to the next the count grows in the four-year rhythm, except at the end of
      the stretches that leave 4 years over. */
  lemma CountStep(n: nat, q: nat, r: nat, jump: nat)
    requires r < 33 && n == 33 * q + r && n + 1 < jump
    ensures LeapsWithin(n + 1, jump) - LeapsWithin(n, jump)
         == (if r % 4 == 0 && r != 32 then 1 else 0)
          + (if jump % 33 != 4 then 0 else if jump - n == 5 then 1 else if jump - n == 4 then -1 else 0)
  {
    CountAt(n, q, r, jump);
    if r == 32 {
      CountAt(n + 1, q + 1, 0, jump);
    } else {
      CountAt(n + 1, q, r + 1, jump);
      assert (r + 4) / 4 - (r + 3) / 4 == if r % 4 == 0 then 1 else 0;
    }
  }

  /** Inside a stretch the leap test marks exactly the years after which the leap count grows. */
  lemma CountGrowsWithin(n: nat, q: nat, r: nat, c: nat, j: nat, jump: nat)
    requires r < 33 && n == 33 * q + r && (j == 4 || j == 29) && jump == 33 * c + j && n + 1 < jump && 29 <= jump
    ensures LeapsWithin(n + 1, jump) - LeapsWithin(n, jump) == if ResidueWithin(n, jump) == 0 then 1 else 0
  {
    hide LeapsWithin, ResidueWithin;
    CountStep(n, q, r, jump);
    ResidueAt(n, q, r, c, j, jump);
    assert jump % 33 == j;
    if jump - n < 6 {
      if j == 29 {
        assert q == c && r == 29 - (jump - n);
      } else if jump - n == 5 {
        assert q == c - 1 && r == 32;
      } else {
        assert q == c && r == 4 - (jump - n);
      }
    }
  }

  /** Where the leap test looks: the last five years of a stretch are shifted to its end. */
  lemma ResidueAt(n: nat, q: nat, r: nat, c: nat, j: nat, jump: nat)
    requires r < 33 && n == 33 * q + r && (j == 4 || j == 29) && jump == 33 * c + j && n < jump && 29 <= jump
    ensures ResidueWithin(n, jump) == 0 <==>
              if jump - n >= 6 then r % 4 == 0 && r != 32
              else if j == 29 then r == 24
              else r == 32
  {
    hide Div, Mod;
    if jump - n >= 6 {
      RhythmAt(n, q, r);
    } else {
      ShiftAt(c, j, jump);
      var shifted := n - jump + Div(jump + 4, 33) * 33;
      if j == 29 {
        assert q == c && shifted == n + 4;
        RhythmAt(shifted, q, r + 4);
      } else if r >= 4 {
        assert q == c - 1 && r == 32 && shifted == n - 4;
        RhythmAt(shifted, q, r - 4);
      } else {
        assert q == c && shifted == n - 4;
        RhythmAt(shifted, q - 1, r + 29);
      }
    }
  }

  /** The same at the last year of a stretch, whose successor opens the next one. */
  lemma CountGrowsAcross(n: nat, c: nat, j: nat, jump: nat)
    requires (j == 4 || j == 29) && jump == 33 * c + j && 29 <= jump && n + 1 == jump
    ensures StretchLeaps(jump) - LeapsWithin(n, jump) == if ResidueWithin(n, jump) == 0 then 1 else 0
  {
    CountAt(n, c, j - 1, jump);
    ResidueAt(n, c, j - 1, c, j, jump);
    QuotientIs(c, j, 33);
    OnNat(j, 4);
  }

  lemma SegmentIs(year: int, k: nat, from: nat)
    requires from <= k < |LEAP_BREAKS|
    requires k == from || LEAP_BREAKS[k] <= year
    requires k + 1 < |LEAP_BREAKS| ==> year < LEAP_BREAKS[k + 1]
    ensures Segment(year, from) == k
    decreases k - from
  {
    if from < k {
      var next := from + 1;
      BreaksIncrease(next, k);
      SegmentIs(year, k, next);
    }
  }

  lemma BreaksIncrease(i: nat, k: nat)
    requires i <= k < |LEAP_BREAKS|
    ensures LEAP_BREAKS[i] <= LEAP_BREAKS[k]
    decreases k - i
  {
  }

  /** A year `n` years into stretch `k`. */
  lemma AtStretch(year: int, k: nat, n: nat)
    requires k < |LEAP_BREAKS| && year == LEAP_BREAKS[k] + n
    requires k + 1 < |LEAP_BREAKS| ==> n < Jump(k)
    ensures LeapCount(year) == LeapsBefore(k) + LeapsWithin(n, Jump(k))
    ensures IsLeapYear(year) <==> ResidueWithin(n, Jump(k)) == 0
  {
    hide LeapsWithin, ResidueWithin, LeapsBefore;
    SegmentIs(year, k, 0);
  }

  lemma StretchGrows(n: int, jump: int)
    requires 0 <= n < jump && 29 <= jump && (jump % 33 == 4 || jump % 33 == 29)
    ensures (if n + 1 < jump then LeapsWithin(n + 1, jump) else StretchLeaps(jump)) - LeapsWithin(n, jump)
         == if ResidueWithin(n, jump) == 0 then 1 else 0
  {
    hide LeapsWithin, ResidueWithin, StretchLeaps;
    var q, r, c, j := n / 33, n % 33, jump / 33, jump % 33;
    assert n == 33 * q + r && jump == 33 * c + j;
    if n + 1 < jump {
      CountGrowsWithin(n, q, r, c, j, jump);
    } else {
      CountGrowsAcross(n, c, j, jump);
    }
  }

  lemma CountGrowsInside(year: int, k: nat, n: nat)
    requires k + 1 < |LEAP_BREAKS| && year == LEAP_BREAKS[k] + n && n + 1 < Jump(k)
    ensures LeapCount(year + 1) - LeapCount(year) == if IsLeapYear(year) then 1 else 0
  {
    hide LeapsWithin, ResidueWithin, LeapCount, IsLeapYear, LeapsBefore;
    JumpShape(k);
    AtStretch(year, k, n);
    AtStretch(year + 1, k, n + 1);
    StretchGrows(n, Jump(k));
  }

  /** At a break the count is the accumulated one. */
  lemma AtBreak(k: nat)
    requires k < |LEAP_BREAKS|
    ensures LeapCount(LEAP_BREAKS[k]) == LeapsBefore(k)
  {
    JumpShape(k);
    AtStretch(LEAP_BREAKS[k], k, 0);
  }

  lemma CountGrowsAtBreak(year: int, k: nat, n: nat)
    requires k + 1 < |LEAP_BREAKS| && year == LEAP_BREAKS[k] + n && n + 1 == Jump(k)
    ensures LeapCount(year + 1) - LeapCount(year) == if IsLeapYear(year) then 1 else 0
  {
    hide LeapsWithin, ResidueWithin, LeapCount, IsLeapYear;
    var jump := Jump(k);
    assert year + 1 == LEAP_BREAKS[k + 1];
    assert LeapCount(year + 1) == LeapsBefore(k) + StretchLeaps(jump) by {
      AtBreak(k + 1);
    }
    JumpShape(k);
    AtStretch(year, k, n);
    StretchGrows(n, jump);
  }

  /** Leap count and leap residue are computed by different formulas; they agree on every
      supported year, the last year of each stretch included. */
  lemma LeapTestMatchesCount(year: int)
    requires MIN_YEAR <= year <= MAX_YEAR
    ensures LeapCount(year + 1) - LeapCount(year) == if IsLeapYear(year) then 1 else 0
  {
    var k := Segment(year, 0);
    var n := year - LEAP_BREAKS[k];
    if n + 1 < Jump(k) {
      CountGrowsInside(year, k, n);
    } else {
      CountGrowsAtBreak(year, k, n);
    }
  }
}
