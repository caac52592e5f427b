/**
  `TLE.Time`: the epoch of a record as an instant. The text EpochYear + EpochDay
  is split at its first '.', the five characters before it are read as a
  two-digit year and a day of the year, the rest as a fraction of a day. The
  instant is counted in nanoseconds since 1970-01-01T00:00:00 UTC.
*/
module Epoch {
  import opened Wrappers
  import opened GoStrings
  import opened Utils
  import opened CivilTime
  import opened Tle

  const NanosPerDay: nat := 86_400_000_000_000

  /** The error returns of `Time`, in the order they are checked. */
  datatype EpochError =
    | NoDecimalPoint       // no '.' in the epoch text
    | YearDayNotFiveChars  // the part before the first '.' is not five characters long
    | BadYear              // its first two characters are not an integer
    | BadDay               // its last three characters are not an integer
    | DayOutOfRange        // the day of the year is outside 1..366
    | BadFraction          // "0." + the text after the '.' is not a float literal
    | FractionOutOfRange   // the fraction, as a float64, is not below 1.0

  /** What `Time` adds up: the full year, the day of the year and the offset into that day. */
  datatype EpochParts = EpochParts(fullYear: int, dayOfYear: int, nanos: int)

  // ---------------------------------------------------------------------------
  // The two-digit year
  // ---------------------------------------------------------------------------

  /** The century pivot: 57..99 are 1957..1999, anything below 57 is 2000 plus it. */
  function FullYear(yy: int): int {
    if yy >= 57 then 1900 + yy else 2000 + yy
  }

  /** A two-digit year names the one year in 1957..2056 that ends in those digits. */
  lemma FullYearWindow(yy: int)
    requires 0 <= yy <= 99
    ensures 1957 <= FullYear(yy) <= 2056 && FullYear(yy) % 100 == yy
  {
  }

  /** A two-character string that `strconv.Atoi` accepts is at least -9 and at most 99. */
  lemma TwoCharacterInteger(s: string)
    requires |s| == 2 && Atoi(s).Some?
    ensures -9 <= Atoi(s).value <= 99
  {
    if s[0] == '+' || s[0] == '-' {
      assert DigitsValue(s[1..]) < Pow10(1);
    } else {
      assert DigitsValue(s) < Pow10(2);
    }
  }

  // ---------------------------------------------------------------------------
  // The fraction of the day
  // ---------------------------------------------------------------------------

  /** The exact number `digits` * 10^`scale`. */
  datatype Decimal = Decimal(digits: nat, scale: int)

  /** Numerator and denominator of a Decimal. */
  function Num(x: Decimal): nat {
    if x.scale >= 0 then x.digits * Pow10(x.scale) else x.digits
  }

  function Den(x: Decimal): (d: nat)
    ensures d >= 1
  {
    if x.scale >= 0 then 1 else Pow10(-x.scale)
  }

  /** Go accepts '_' in a decimal float literal only between two digits; the
      fraction follows "0.", so no underscore may start it. */
  predicate UnderscoresBetweenDigits(f: string) {
    forall k :: 0 <= k < |f| && f[k] == '_' ==> 0 < k < |f| - 1 && IsDigit(f[k - 1]) && IsDigit(f[k + 1])
  }

  function WithoutUnderscores(f: string): string {
    if f == [] then [] else (if f[0] == '_' then [] else [f[0]]) + WithoutUnderscores(f[1..])
  }

  /** Length of the run of decimal digits at the start of `s`. */
  function DigitRun(s: string): (n: nat)
    ensures n <= |s| && AllDigits(s[..n]) && (n < |s| ==> !IsDigit(s[n]))
  {
    if s == [] || !IsDigit(s[0]) then 0
    else
      var m := DigitRun(s[1..]);
      assert s[..1 + m] == [s[0]] + s[1..][..m];
      1 + m
  }

  /** The exact value of `strconv.ParseFloat("0." + f, 64)` before it is rounded to
      a float64: decimal digits, then optionally 'e' or 'E', a sign and at least
      one digit. The exponent has the grammar `strconv.Atoi` accepts. */
  function FractionValue(f: string): (r: Option<Decimal>)
    ensures AllDigits(f) ==> r == Some(Decimal(DigitsValue(f), -|f|))
    ensures r.Some? ==> UnderscoresBetweenDigits(f)
  {
    PlainDigits(f);
    if !UnderscoresBetweenDigits(f) then None
    else
      var g := WithoutUnderscores(f);
      var n := DigitRun(g);
      if n == |g| then Some(Decimal(DigitsValue(g), -(n as int)))
      else if g[n] == 'e' || g[n] == 'E' then
        match Atoi(g[n + 1..])
        case None => None
        case Some(e) => Some(Decimal(DigitsValue(g[..n]), e - n))
      else None
  }

  const TwoTo54: nat := 0x40_0000_0000_0000

  /** The float64 nearest a real in [1 - 2^-54, 1) is 1.0 (the midpoint goes to
      the even neighbour, 1.0), so these are exactly the values that fail the
      test `fractionalDay >= 1.0` once read. */
  predicate RoundsToOne(x: Decimal) {
    Num(x) * TwoTo54 >= (TwoTo54 - 1) * Den(x)
  }

  /** `math.Round(fractionalDay * nanosInDay)` taken on the exact value: the
      integer nearest to the fraction times the nanoseconds of a day, halves
      rounded up. */
  function FractionNanos(x: Decimal): (r: int)
    requires !RoundsToOne(x)
    ensures 0 <= r <= NanosPerDay
    ensures 2 * (r * Den(x) - Num(x) * NanosPerDay) <= Den(x)
    ensures 2 * (Num(x) * NanosPerDay - r * Den(x)) < Den(x)
  {
    var n, d := Num(x), Den(x);
    var q := (2 * n * NanosPerDay + d) / (2 * d);
    NearestRounding(n, d, q);
    q
  }

  /** The quotient FractionNanos takes is the nearest integer and at most one day. */
  lemma NearestRounding(n: nat, d: nat, q: int)
    requires d >= 1 && n * TwoTo54 < (TwoTo54 - 1) * d
    requires q == (2 * n * NanosPerDay + d) / (2 * d)
    ensures 0 <= q <= NanosPerDay
    ensures 2 * (q * d - n * NanosPerDay) <= d
    ensures 2 * (n * NanosPerDay - q * d) < d
  {
    var m := 2 * n * NanosPerDay + d;
    var k := 2 * d;
    var rem := m % k;
    assert m == q * k + rem && 0 <= rem < k;
    MulLe(d, n, TwoTo54);
    assert n <= d - 1;
    MulLe(NanosPerDay + 1, q, k);
    MulLe(q, -1, k);
  }

  lemma MulLe(a: int, b: int, k: nat)
    ensures a <= b ==> a * k <= b * k
  {
  }

  /** A fraction of at most sixteen plain digits is always below the value that
      rounds to 1.0: the check `fractionalDay >= 1.0` can only fire through an
      exponent or from seventeen digits on. */
  lemma ShortDigitFractionsInRange(f: string)
    requires AllDigits(f) && |f| <= 16
    ensures FractionValue(f).Some? && !RoundsToOne(FractionValue(f).value)
    ensures FractionValue(f).value == Decimal(DigitsValue(f), -|f|)
  {
    NoUnderscoresKept(f);
    DigitRunOfDigits(f);
    var d := Pow10(|f|);
    assert d <= Pow10(16) by { Pow10Monotone(|f|, 16); }
    assert Pow10(16) < TwoTo54 by {
      assert Pow10(4) == 10000;
      assert Pow10(8) == 100000000;
      assert Pow10(12) == 1000000000000;
    }
    var n := DigitsValue(f);
    assert n <= d - 1;
    assert n * TwoTo54 <= (d - 1) * TwoTo54;
  }

  lemma {:induction false} NoUnderscoresKept(f: string)
    requires AllDigits(f)
    ensures UnderscoresBetweenDigits(f) && WithoutUnderscores(f) == f
  {
    if f != [] {
      assert AllDigits(f[1..]) by {
        forall k | 0 <= k < |f[1..]| ensures IsDigit(f[1..][k]) { assert f[1..][k] == f[k + 1]; }
      }
      NoUnderscoresKept(f[1..]);
      assert [f[0]] + f[1..] == f;
    }
  }

  lemma {:induction false} DigitRunOfDigits(s: string)
    requires AllDigits(s)
    ensures DigitRun(s) == |s|
  {
    if s != [] {
      assert AllDigits(s[1..]) by {
        forall k | 0 <= k < |s[1..]| ensures IsDigit(s[1..][k]) { assert s[1..][k] == s[k + 1]; }
      }
      DigitRunOfDigits(s[1..]);
    }
  }

  /** A fraction of plain digits has no underscores to drop and is one run of digits. */
  lemma PlainDigits(f: string)
    ensures AllDigits(f) ==> UnderscoresBetweenDigits(f) && WithoutUnderscores(f) == f && DigitRun(f) == |f|
  {
    if AllDigits(f) {
      NoUnderscoresKept(f);
      DigitRunOfDigits(f);
    }
  }

  lemma {:induction false} Pow10Monotone(a: nat, b: nat)
    requires a <= b
    ensures Pow10(a) <= Pow10(b)
    decreases b
  {
    if a < b {
      Pow10Monotone(a, b - 1);
    }
  }

  // ---------------------------------------------------------------------------
  // The epoch
  // ---------------------------------------------------------------------------

  /** The checks of `Time` in their order, on the text EpochYear + EpochDay:
      `strings.SplitN(text, ".", 2)` must give two parts. */
  function ParseEpoch(text: string): (r: Result<EpochParts, EpochError>)
    ensures r.Ok? ==> 1957 <= r.value.fullYear <= 2056 && 1 <= r.value.dayOfYear <= 366
    ensures r.Ok? ==> 0 <= r.value.nanos <= NanosPerDay
    ensures r.Ok? <==> (IndexOf(text, '.') == Some(5) && Atoi(text[..2]).Some? && Atoi(text[2..5]).Some?
      && 1 <= Atoi(text[2..5]).value <= 366 && ReadFraction(text[6..]).Ok?)
    ensures r.Ok? ==>
      r.value == EpochParts(FullYear(Atoi(text[..2]).value), Atoi(text[2..5]).value, ReadFraction(text[6..]).value)
    ensures (IndexOf(text, '.') == Some(5) && Atoi(text[..2]).Some? && Atoi(text[2..5]).Some?
      && 1 <= Atoi(text[2..5]).value <= 366 && ReadFraction(text[6..]).Err?) ==>
      r == Err(ReadFraction(text[6..]).error)
  {
    match IndexOf(text, '.')
    case None => Err(NoDecimalPoint)
    case Some(i) =>
      if i == 5 then
        assert text[..5][..2] == text[..2];
        assert text[..5][2..] == text[2..5];
        ReadEpoch(text[..5], text[6..])
      else ReadEpoch(text[..i], text[i + 1..])
  }

  /** The checks after the split, on the part before the first '.' and the part after it. */
  function ReadEpoch(yearDay: string, fraction: string): (r: Result<EpochParts, EpochError>)
    ensures r.Ok? ==> 1957 <= r.value.fullYear <= 2056 && 1 <= r.value.dayOfYear <= 366
    ensures r.Ok? ==> 0 <= r.value.nanos <= NanosPerDay
    ensures r.Ok? <==> (|yearDay| == 5 && Atoi(yearDay[..2]).Some? && Atoi(yearDay[2..]).Some?
      && 1 <= Atoi(yearDay[2..]).value <= 366 && ReadFraction(fraction).Ok?)
    ensures r.Ok? ==>
      r.value == EpochParts(FullYear(Atoi(yearDay[..2]).value), Atoi(yearDay[2..]).value, ReadFraction(fraction).value)
    ensures (|yearDay| == 5 && Atoi(yearDay[..2]).Some? && Atoi(yearDay[2..]).Some?
      && 1 <= Atoi(yearDay[2..]).value <= 366 && ReadFraction(fraction).Err?) ==>
      r == Err(ReadFraction(fraction).error)
  {
    if |yearDay| != 5 then Err(YearDayNotFiveChars)
    else
      match Atoi(yearDay[..2])
      case None => Err(BadYear)
      case Some(yy) =>
        TwoCharacterInteger(yearDay[..2]);
        match Atoi(yearDay[2..])
        case None => Err(BadDay)
        case Some(day) =>
          if day < 1 || day > 366 then Err(DayOutOfRange)
          else
            match ReadFraction(fraction)
            case Err(e) => Err(e)
            case Ok(nanos) => Ok(EpochParts(FullYear(yy), day, nanos))
  }

  /** `strconv.ParseFloat("0." + fraction, 64)`, the range check and the rounding to nanoseconds. */
  function ReadFraction(fraction: string): (r: Result<int, EpochError>)
    ensures r.Ok? ==> 0 <= r.value <= NanosPerDay
    ensures r.Err? ==> r.error == BadFraction || r.error == FractionOutOfRange
    ensures r.Ok? <==> FractionValue(fraction).Some? && !RoundsToOne(FractionValue(fraction).value)
    ensures r == Err(BadFraction) <==> FractionValue(fraction).None?
    ensures r.Ok? ==> r.value == FractionNanos(FractionValue(fraction).value)
  {
    match FractionValue(fraction)
    case None => Err(BadFraction)
    case Some(x) =>
      if RoundsToOne(x) then Err(FractionOutOfRange)
      else Ok(FractionNanos(x))
  }

  /** Midnight of January 1 of the full year, plus the days before the day of the
      year, plus the offset into that day. */
  function Instant(p: EpochParts): (r: int)
    ensures 1 <= p.dayOfYear <= 366 ==>
      var date := DateOfYearDay(p.fullYear, p.dayOfYear);
      r == DaysFromCivil(date.0, date.1, date.2) * NanosPerDay + p.nanos
  {
    (DaysBeforeYear(p.fullYear) + p.dayOfYear - 1) * NanosPerDay + p.nanos
  }

  /** An epoch the checks accept lies between midnight of 1957-01-01 and midnight of 2057-01-01. */
  lemma InstantWindow(p: EpochParts)
    requires 1957 <= p.fullYear <= 2056 && 1 <= p.dayOfYear <= 366 && 0 <= p.nanos <= NanosPerDay
    ensures DaysBeforeYear(1957) * NanosPerDay <= Instant(p) <= DaysBeforeYear(2057) * NanosPerDay
  {
    YearsApart(1957, p.fullYear);
    YearsApart(p.fullYear, 2057);
    if p.fullYear == 2056 {
      YearLengthMatchesLeapTest(2056);
    } else {
      YearsApart(p.fullYear + 1, 2057);
      YearLengthMatchesLeapTest(p.fullYear);
    }
  }

  function EpochText(t: TLE): string {
    t.line1.epochYear + t.line1.epochDay
  }

  /** `TLE.Time`. */
  function Time(t: TLE): (r: Result<int, EpochError>)
    ensures r.Ok? <==> ParseEpoch(EpochText(t)).Ok?
    ensures r.Err? ==> r.error == ParseEpoch(EpochText(t)).error
    ensures r.Ok? ==> r.value == Instant(ParseEpoch(EpochText(t)).value)
    ensures r.Ok? ==> DaysBeforeYear(1957) * NanosPerDay <= r.value <= DaysBeforeYear(2057) * NanosPerDay
  {
    match ParseEpoch(EpochText(t))
    case Err(e) => Err(e)
    case Ok(p) =>
      InstantWindow(p);
      Ok(Instant(p))
  }

  /** An epoch written the usual way, two year digits, three day digits in 1..366,
      a point and at most sixteen fraction digits, is always accepted, with the
      pivoted year, the day and the rounded fraction. */
  lemma DigitEpoch(yy: string, ddd: string, f: string)
    requires |yy| == 2 && AllDigits(yy) && |ddd| == 3 && AllDigits(ddd) && 1 <= DigitsValue(ddd) <= 366
    requires AllDigits(f) && |f| <= 16
    ensures FractionValue(f) == Some(Decimal(DigitsValue(f), -|f|)) && !RoundsToOne(FractionValue(f).value)
    ensures ParseEpoch(yy + ddd + "." + f) ==
      Ok(EpochParts(FullYear(DigitsValue(yy)), DigitsValue(ddd), FractionNanos(FractionValue(f).value)))
  {
    ShortDigitFractionsInRange(f);
    assert '.' !in yy + ddd by {
      assert AllDigits(yy + ddd) by {
        forall k | 0 <= k < |yy + ddd| ensures IsDigit((yy + ddd)[k]) {
          if k >= 2 { assert (yy + ddd)[k] == ddd[k - 2]; }
        }
      }
    }
    SplitAtFirstPoint(yy + ddd, f);
    YearDaySlices(yy, ddd);
  }

  // ---------------------------------------------------------------------------
  // Properties
  // ---------------------------------------------------------------------------

  /** The text is split at its first '.'. */
  lemma SplitAtFirstPoint(yearDay: string, fraction: string)
    requires '.' !in yearDay
    ensures ParseEpoch(yearDay + "." + fraction) == ReadEpoch(yearDay, fraction)
  {
    var text := yearDay + "." + fraction;
    IndexOfAfterPrefix(yearDay, '.', fraction);
    assert text[..|yearDay|] == yearDay;
    assert text[|yearDay| + 1..] == fraction;
  }

  /** Which error `Time` reports: each check fails exactly when the earlier ones
      pass and its own condition does not hold. */
  lemma EpochErrorOrder(text: string)
    ensures ParseEpoch(text) == Err(NoDecimalPoint) <==> '.' !in text
    ensures ParseEpoch(text) == Err(YearDayNotFiveChars) <==> '.' in text && IndexOf(text, '.').value != 5
    ensures ParseEpoch(text) == Err(BadYear) <==> IndexOf(text, '.') == Some(5) && Atoi(text[..2]).None?
    ensures ParseEpoch(text) == Err(BadDay) <==>
      IndexOf(text, '.') == Some(5) && Atoi(text[..2]).Some? && Atoi(text[2..5]).None?
    ensures ParseEpoch(text) == Err(DayOutOfRange) <==>
      IndexOf(text, '.') == Some(5) && Atoi(text[..2]).Some? && Atoi(text[2..5]).Some? &&
      !(1 <= Atoi(text[2..5]).value <= 366)
  {
    match IndexOf(text, '.')
    case None =>
    case Some(i) =>
      if i == 5 {
        assert text[..5][..2] == text[..2];
        assert text[..5][2..] == text[2..5];
      }
  }

  /** The instant is midnight UTC of the calendar date the year and day name,
      plus an offset of at most one day. */
  lemma TimeLandsOnDate(t: TLE)
    requires Time(t).Ok?
    ensures var p := ParseEpoch(EpochText(t)).value;
      var date := DateOfYearDay(p.fullYear, p.dayOfYear);
      ValidDate(date.0, date.1, date.2) &&
      Time(t).value == DaysFromCivil(date.0, date.1, date.2) * NanosPerDay + p.nanos &&
      0 <= p.nanos <= NanosPerDay
  {
  }

  /** Day 366 is accepted in every year: in a common year it is January 1 of the
      next year, in a leap year December 31. */
  lemma Day366(year: int)
    ensures !IsLeap(year) ==> DateOfYearDay(year, 366) == (year + 1, 1, 1)
    ensures IsLeap(year) ==> DateOfYearDay(year, 366) == (year, 12, 31)
  {
    if IsLeap(year) {
      var r := MonthDay(366, true);
      MonthDayInRange(366, true);
      PrefixSumIsCumulative(true, r.0 - 1);
    }
  }

  /** The five characters before the point, as a year and a day. */
  lemma YearDaySlices(yy: string, ddd: string)
    requires |yy| == 2 && |ddd| == 3
    ensures |yy + ddd| == 5 && (yy + ddd)[..2] == yy && (yy + ddd)[2..] == ddd
  {
  }

  lemma TwoDigits(a: char, b: char)
    requires IsDigit(a) && IsDigit(b)
    ensures Atoi([a, b]) == Some(10 * DigitValue(a) + DigitValue(b))
  {
    var s := [a, b];
    assert AllDigits(s) by {
      forall k | 0 <= k < 2 ensures IsDigit(s[k]) { }
    }
    assert s[..1] == [a];
    assert [a][..0] == [];
    assert DigitsValue([a]) == DigitValue(a);
    assert DigitsValue(s) == 10 * DigitValue(a) + DigitValue(b);
  }

  lemma ThreeDigits(a: char, b: char, c: char)
    requires IsDigit(a) && IsDigit(b) && IsDigit(c)
    ensures Atoi([a, b, c]) == Some(100 * DigitValue(a) + 10 * DigitValue(b) + DigitValue(c))
  {
    var s := [a, b, c];
    assert AllDigits(s) by {
      forall k | 0 <= k < 3 ensures IsDigit(s[k]) { }
    }
    assert s[..2] == [a, b];
    assert [a, b][..1] == [a];
    assert [a][..0] == [];
    assert DigitsValue([a]) == DigitValue(a);
    assert DigitsValue([a, b]) == 10 * DigitValue(a) + DigitValue(b);
    assert DigitsValue(s) == 100 * DigitValue(a) + 10 * DigitValue(b) + DigitValue(c);
  }

  /** The epoch text is read by value, not by form: a fraction with an exponent
      can reach 1.0 and is then rejected. */
  lemma ExponentFractionRejected()
    ensures ParseEpoch("08264" + "." + "5e1") == Err(FractionOutOfRange)
  {
    assert "08264" == "08" + "264";
    SplitAtFirstPoint("08" + "264", "5e1");
    YearDaySlices("08", "264");
    TwoDigits('0', '8');
    ThreeDigits('2', '6', '4');
    FractionWithExponent();
  }

  /** "0." + "5e1" reads as 5. */
  lemma FractionWithExponent()
    ensures ReadFraction("5e1") == Err(FractionOutOfRange)
  {
    var f := "5e1";
    assert UnderscoresBetweenDigits(f);
    assert WithoutUnderscores(f) == f;
    assert DigitRun(f) == 1;
    assert f[2..] == "1";
    assert FractionValue(f) == Some(Decimal(5, 0));
  }

  lemma FourDigits(a: char, b: char, c: char, d: char)
    requires IsDigit(a) && IsDigit(b) && IsDigit(c) && IsDigit(d)
    ensures AllDigits([a, b, c, d])
    ensures DigitsValue([a, b, c, d]) == 1000 * DigitValue(a) + 100 * DigitValue(b) + 10 * DigitValue(c) + DigitValue(d)
  {
    var s := [a, b, c, d];
    assert AllDigits(s) by {
      forall k | 0 <= k < 4 ensures IsDigit(s[k]) { }
    }
    assert s[..3] == [a, b, c];
    assert [a, b, c][..2] == [a, b];
    assert [a, b][..1] == [a];
    assert [a][..0] == [];
    assert DigitsValue([a]) == DigitValue(a);
    assert DigitsValue([a, b]) == 10 * DigitValue(a) + DigitValue(b);
    assert DigitsValue([a, b, c]) == 100 * DigitValue(a) + 10 * DigitValue(b) + DigitValue(c);
  }

  /** 0.51782528 of a day is 12:25:40.104192. */
  lemma IssFraction()
    ensures ReadFraction("5178" + "2528") == Ok(44_740_104_192_000)
  {
    var hi, lo := "5178", "2528";
    assert DigitsValue(hi) == 5178 && AllDigits(hi) by { FourDigits('5', '1', '7', '8'); }
    assert DigitsValue(lo) == 2528 && AllDigits(lo) by { FourDigits('2', '5', '2', '8'); }
    DigitsValueConcat(hi, lo);
    assert |lo| == 4 && |hi + lo| == 8;
    assert Pow10(|lo|) == 10000;
    assert DigitsValue(hi + lo) == 51782528;
    ShortDigitFractionsInRange(hi + lo);
    var x := Decimal(51782528, -8);
    assert FractionValue(hi + lo) == Some(x);
    assert Num(x) == 51782528 && Den(x) == 100000000;
    assert FractionNanos(x) == 44_740_104_192_000 by {
      DivUnique(2 * 51782528 * NanosPerDay + 100000000, 2 * 100000000, 44_740_104_192_000, 100000000);
    }
  }

  /** Day 264 of the leap year 2008 is September 20. */
  lemma IssDate()
    ensures DateOfYearDay(2008, 264) == (2008, 9, 20)
  {
    assert IsLeap(2008);
    LeapDay264();
  }

  lemma LeapDay264()
    ensures MonthDay(264, true) == (9, 20)
  {
  }

  /** The example record's epoch, "08" + "264.51782528": day 264 of 2008, which
      is September 20, and 0.51782528 of a day, 12:25:40.104192. */
  lemma IssEpoch()
    ensures ParseEpoch("08" + "264.51782528") == Ok(EpochParts(2008, 264, 44_740_104_192_000))
    ensures DateOfYearDay(2008, 264) == (2008, 9, 20)
    ensures Instant(EpochParts(2008, 264, 44_740_104_192_000)) ==
      DaysFromCivil(2008, 9, 20) * NanosPerDay + 44_740_104_192_000
  {
    var f := "5178" + "2528";
    assert "08" + "264.51782528" == ("08" + "264") + "." + f;
    SplitAtFirstPoint("08" + "264", f);
    YearDaySlices("08", "264");
    TwoDigits('0', '8');
    ThreeDigits('2', '6', '4');
    IssFraction();
    IssDate();
  }

  /** The epoch of the example record is 2008-09-20T12:25:40.104192Z. */
  lemma IssTime()
    ensures ParseTle(IssLine1, IssLine2, IssName).Ok?
    ensures Time(ParseTle(IssLine1, IssLine2, IssName).value) ==
      Ok(DaysFromCivil(2008, 9, 20) * NanosPerDay + 44_740_104_192_000)
  {
    IssLine1Fields();
    IssLine2Fields();
    IssEpoch();
  }

  /** `strconv.Atoi` takes a sign, so signed year texts pass the year check and
      go through the pivot too. */
  lemma SignedYearExamples()
    ensures Atoi("-5") == Some(-5) && FullYear(-5) == 1995
    ensures Atoi("+7") == Some(7) && FullYear(7) == 2007
  {
    assert AllDigits("-5"[1..]) && AllDigits("+7"[1..]);
  }

  /** The century pivot on the two-character year texts at the edges of the window. */
  lemma PivotExamples()
    ensures Atoi("57") == Some(57) && FullYear(57) == 1957
    ensures Atoi("99") == Some(99) && FullYear(99) == 1999
    ensures Atoi("00") == Some(0) && FullYear(0) == 2000
    ensures Atoi("56") == Some(56) && FullYear(56) == 2056
  {
    TwoDigits('5', '7');
    TwoDigits('9', '9');
    TwoDigits('0', '0');
    TwoDigits('5', '6');
  }
}
