/**
  Helpers of the TLE package (pkg/tle/utils.go): the implicit-decimal
  scientific-notation normaliser, the modulo-10 line checksum, the record
  validator, the day-of-year to month/day scan and the leap-year test.
*/
module Utils {
  import opened Wrappers
  import opened GoStrings

  // ---------------------------------------------------------------------------
  // Scientific notation
  // ---------------------------------------------------------------------------

  /** `ParseScientificNotation`. The last two characters are the exponent, the
      rest the mantissa; a point is put after the mantissa's first character
      (a sign included) unless it already holds one. `None` stands for the
      run-time panic of the Go code: a one-character input makes the slice
      `value[:len(value)-2]` go out of range, and a two-character input leaves an
      empty mantissa on which `mantissa[:1]` goes out of range. */
  function ParseScientificNotation(value: string): (r: Option<string>)
    ensures r.None? <==> |value| == 1 || |value| == 2
    ensures value == [] ==> r == Some("0.0")
  {
    if |value| == 0 then Some("0.0")
    else if |value| < 2 then None
    else
      var mantissa := value[..|value| - 2];
      var exponent := value[|value| - 2..];
      if '.' !in mantissa then
        if |mantissa| < 1 then None
        else
          Some(mantissa[..1] + "." + mantissa[1..] + "e" + exponent)
      else
        Some(mantissa + "e" + exponent)
  }

  /** On three or more characters the result is one or two characters longer
      than the input, holds a point before the 'e', and ends with the 'e' and the
      input's last two characters. */
  lemma ScientificNotationShape(value: string)
    requires |value| >= 3
    ensures var r := ParseScientificNotation(value).value; var n := |r|;
      n == |value| + 1 + (if '.' in value[..|value| - 2] then 0 else 1)
      && r[n - 3] == 'e' && r[n - 2..] == value[|value| - 2..]
      && '.' in r[..n - 3]
  {
    var mantissa := value[..|value| - 2];
    var exponent := value[|value| - 2..];
    if '.' !in mantissa {
      var m := mantissa[..1] + "." + mantissa[1..];
      assert (m + "e" + exponent)[..|m|] == m && m[1] == '.';
      assert m + "e" + exponent == mantissa[..1] + "." + mantissa[1..] + "e" + exponent;
    } else {
      assert (mantissa + "e" + exponent)[..|mantissa|] == mantissa;
    }
  }

  function DropAt(s: string, k: nat): string
    requires k < |s|
  {
    s[..k] + s[k + 1..]
  }

  /** The normaliser only inserts characters: deleting the 'e' (and the point,
      when one was inserted) gives the input back. */
  lemma ScientificNotationInsertsOnly(value: string)
    requires |value| >= 3
    ensures var r := ParseScientificNotation(value).value;
      var n := |r|;
      if '.' in value[..|value| - 2] then DropAt(r, n - 3) == value
      else DropAt(DropAt(r, n - 3), 1) == value
  {
    var r := ParseScientificNotation(value).value;
    var mantissa := value[..|value| - 2];
    var exponent := value[|value| - 2..];
    assert value == mantissa + exponent;
    if '.' in mantissa {
      assert r == mantissa + "e" + exponent;
      assert DropAt(r, |r| - 3) == mantissa + exponent;
    } else {
      assert r == mantissa[..1] + "." + mantissa[1..] + "e" + exponent;
      assert DropAt(r, |r| - 3) == mantissa[..1] + "." + mantissa[1..] + exponent;
      assert mantissa == mantissa[..1] + mantissa[1..];
    }
  }

  /** On a TLE implicit-decimal token (a sign, digits, then a signed one-digit
      exponent), the point goes right after the sign: "-11606-4" means "-.11606e-4". */
  lemma ScientificNotationAfterSign(sign: char, digits: string, expSign: char, expDigit: char)
    requires AllDigits(digits) && digits != []
    requires sign == '-' || sign == '+' || sign == ' '
    ensures ParseScientificNotation([sign] + digits + [expSign, expDigit])
         == Some([sign, '.'] + digits + ['e', expSign, expDigit])
  {
    var value := [sign] + digits + [expSign, expDigit];
    var mantissa := value[..|value| - 2];
    assert mantissa == [sign] + digits;
    assert '.' !in mantissa by {
      forall k | 0 <= k < |mantissa| ensures mantissa[k] != '.' {
        if k > 0 { assert mantissa[k] == digits[k - 1]; }
      }
    }
    assert mantissa[..1] == [sign];
    assert mantissa[1..] == digits;
    assert value[|value| - 2..] == [expSign, expDigit];
    assert mantissa[..1] + "." + mantissa[1..] + "e" + value[|value| - 2..]
        == [sign, '.'] + digits + ['e', expSign, expDigit];
  }

  /** The fields of the source's example record, as the code transforms them. */
  lemma ScientificNotationExamples()
    ensures ParseScientificNotation("-11606-4") == Some("-.11606e-4")
    ensures ParseScientificNotation("00000-0") == Some("0.0000e-0")
    ensures ParseScientificNotation("-.00002182") == Some("-.000021e82")
    ensures ParseScientificNotation("") == Some("0.0")
  {
    ScientificNotationAfterSign('-', "11606", '-', '4');
    assert "-11606-4" == ['-'] + "11606" + ['-', '4'];
    assert "-.11606e-4" == ['-', '.'] + "11606" + ['e', '-', '4'];
    var z := "00000-0";
    assert z[..5] == "00000" && z[5..] == "-0";
    assert '.' !in z[..5];
    assert z[..5][..1] + "." + z[..5][1..] + "e" + z[5..] == "0.0000e-0";
    var d := "-.00002182";
    assert d[..8] == "-.000021" && d[8..] == "82";
    assert d[..8][1] == '.';
    assert d[..8] + "e" + d[8..] == "-.000021e82";
  }

  /** The normaliser is not idempotent: its own output for "" is mangled again. */
  lemma ScientificNotationNotIdempotent()
    ensures ParseScientificNotation("0.0") == Some("0.e.0")
    ensures ParseScientificNotation(ParseScientificNotation("").value) != ParseScientificNotation("")
  {
    var z := "0.0";
    assert z[..1] == "0" && z[1..] == ".0";
    assert '.' !in z[..1];
    assert z[..1][..1] + "." + z[..1][1..] + "e" + z[1..] == "0.e.0";
  }

  // ---------------------------------------------------------------------------
  // Checksum
  // ---------------------------------------------------------------------------

  /** What a character adds to the checksum: '-' counts one, a digit its value, anything else nothing. */
  function CharWeight(c: char): (w: nat)
    ensures w < 10
  {
    if c == '-' then 1 else if IsDigit(c) then DigitValue(c) else 0
  }

  function WeightSum(s: string): nat {
    if s == [] then 0 else WeightSum(s[..|s| - 1]) + CharWeight(s[|s| - 1])
  }

  /** A line whose column 68 is a decimal digit equal to the weight sum of columns 0..67, modulo 10. */
  predicate ChecksumValid(line: string)
    requires |line| >= 69
  {
    IsDigit(line[68]) && DigitValue(line[68]) == WeightSum(line[..68]) % 10
  }

  /** `VerifyChecksum`. The Go code indexes `line[68]`, so callers must pass at least 69 characters. */
  method VerifyChecksum(line: string) returns (ok: bool)
    requires |line| >= 69
    ensures ok <==> ChecksumValid(line)
  {
    var sum := 0;
    for i := 0 to 68
      invariant sum == WeightSum(line[..i])
    {
      assert line[..i + 1][..i] == line[..i];
      if line[i] == '-' {
        sum := sum + 1;
      } else if line[i] >= '0' && line[i] <= '9' {
        sum := sum + (line[i] as int - '0' as int);
      }
    }
    var checksum := Atoi([line[68]]);
    if checksum.None? {
      return false;
    }
    return checksum.value == sum % 10;
  }

  lemma {:induction false} WeightSumUpdate(s: string, i: nat, c: char)
    requires i < |s|
    ensures WeightSum(s[i := c]) == WeightSum(s) - CharWeight(s[i]) + CharWeight(c)
  {
    var t := s[i := c];
    if i == |s| - 1 {
      assert t[..|t| - 1] == s[..|s| - 1];
    } else {
      assert t[..|t| - 1] == s[..|s| - 1][i := c];
      WeightSumUpdate(s[..|s| - 1], i, c);
    }
  }

  /** Replacing a character of columns 0..67 by one of the same weight (for
      instance a letter or a space by another non-digit other than '-') never
      changes the verdict. */
  lemma ChecksumIgnoresSameWeight(line: string, i: nat, c: char)
    requires |line| >= 69 && i < 68
    requires CharWeight(c) == CharWeight(line[i])
    ensures ChecksumValid(line[i := c]) == ChecksumValid(line)
  {
    assert line[i := c][..68] == line[..68][i := c];
    WeightSumUpdate(line[..68], i, c);
  }

  /** Changing one digit of columns 0..67 to a different digit turns a valid line into an invalid one. */
  lemma ChecksumDetectsDigitChange(line: string, i: nat, c: char)
    requires |line| >= 69 && i < 68
    requires ChecksumValid(line)
    requires IsDigit(line[i]) && IsDigit(c) && c != line[i]
    ensures !ChecksumValid(line[i := c])
  {
    assert line[i := c][..68] == line[..68][i := c];
    WeightSumUpdate(line[..68], i, c);
    var s := WeightSum(line[..68]);
    var delta := DigitValue(c) - DigitValue(line[i]);
    assert delta != 0 && -10 < delta < 10;
    assert WeightSum(line[i := c][..68]) == s + delta;
    ModTenShift(s, delta);
  }

  lemma ModTenShift(s: int, delta: int)
    requires delta != 0 && -10 < delta < 10
    ensures (s + delta) % 10 != s % 10
  {
  }

  // ---------------------------------------------------------------------------
  // Validation
  // ---------------------------------------------------------------------------

  /** The four failure kinds of `ValidateTLE`, in the order they are checked. */
  datatype ValidationError = InvalidLength | InvalidLineNumbers | IdMismatch | ChecksumMismatch

  /** `ValidateTLE`: `None` is Go's nil error. */
  function ValidateTLE(line1: string, line2: string): (r: Option<ValidationError>)
    ensures r.None? <==>
      |line1| == 69 && |line2| == 69 && line1[0] == '1' && line2[0] == '2'
      && line1[2..7] == line2[2..7] && ChecksumValid(line1) && ChecksumValid(line2)
    ensures r == Some(InvalidLength) <==> |line1| != 69 || |line2| != 69
    ensures r == Some(InvalidLineNumbers) <==>
      |line1| == 69 && |line2| == 69 && (line1[0] != '1' || line2[0] != '2')
    ensures r == Some(IdMismatch) <==>
      |line1| == 69 && |line2| == 69 && line1[0] == '1' && line2[0] == '2' && line1[2..7] != line2[2..7]
  {
    if |line1| != 69 || |line2| != 69 then Some(InvalidLength)
    else if line1[0] != '1' || line2[0] != '2' then Some(InvalidLineNumbers)
    else if line1[2..7] != line2[2..7] then Some(IdMismatch)
    else if !ChecksumValid(line1) || !ChecksumValid(line2) then Some(ChecksumMismatch)
    else None
  }

  /** One changed digit in a validated pair is always caught. Which error is
      reported follows the order of the checks: the line-number column first,
      then the satellite-ID columns 2..6, otherwise the checksum. */
  lemma ValidateDetectsDigitChange(line1: string, line2: string, i: nat, c: char)
    requires ValidateTLE(line1, line2).None?
    requires i < 68 && IsDigit(line1[i]) && IsDigit(c) && c != line1[i]
    ensures ValidateTLE(line1[i := c], line2) ==
      if i == 0 then Some(InvalidLineNumbers)
      else if 2 <= i < 7 then Some(IdMismatch)
      else Some(ChecksumMismatch)
  {
    var l := line1[i := c];
    if 2 <= i < 7 {
      assert l[2..7][i - 2] != line2[2..7][i - 2];
    } else if i != 0 {
      assert l[2..7] == line1[2..7];
      ChecksumDetectsDigitChange(line1, i, c);
    }
  }

  // ---------------------------------------------------------------------------
  // Calendar helpers
  // ---------------------------------------------------------------------------

  /** The leap-year test of `Days2mdhms`. Go's `%` truncates toward zero, but a
      remainder is zero under truncation exactly when it is zero under Dafny's
      Euclidean `%`, so the test reads the same for negative years. */
  predicate IsLeap(year: int) {
    year % 400 == 0 || (year % 4 == 0 && year % 100 != 0)
  }

  /** The month-length table after the leap adjustment, January first. */
  function MonthTable(isLeap: bool): (t: seq<int>)
    ensures |t| == 12
  {
    [31, if isLeap then 29 else 28, 31, 30, 31, 30, 31, 31, 30, 31, 30, 31]
  }

  /** Sum of the first `n` entries of a table. */
  function PrefixSum(t: seq<int>, n: nat): int
    requires n <= |t|
  {
    if n == 0 then 0 else PrefixSum(t, n - 1) + t[n - 1]
  }

  function YearLength(isLeap: bool): int {
    if isLeap then 366 else 365
  }

  /** Days before the first of each month, and before the next year. */
  function CumulativeDays(isLeap: bool): (c: seq<int>)
    ensures |c| == 13
  {
    var l := if isLeap then 1 else 0;
    [0, 31, 59 + l, 90 + l, 120 + l, 151 + l, 181 + l, 212 + l, 243 + l, 273 + l, 304 + l, 334 + l, 365 + l]
  }

  /** The prefix sums of the month table are the familiar cumulative day counts;
      in particular the twelve months add up to the year length. */
  lemma {:induction false} PrefixSumIsCumulative(isLeap: bool, n: nat)
    requires n <= 12
    ensures PrefixSum(MonthTable(isLeap), n) == CumulativeDays(isLeap)[n]
  {
    if n > 0 {
      PrefixSumIsCumulative(isLeap, n - 1);
    }
  }

  lemma YearLengthIsMonthTotal(isLeap: bool)
    ensures PrefixSum(MonthTable(isLeap), 12) == YearLength(isLeap)
  {
    PrefixSumIsCumulative(isLeap, 12);
  }

  /** The scan of `DayOfYearToMonthDay` from table entry `i` on, with `dayCount`
      days still to place. Falling off the end leaves the initial (1, 0). */
  function MonthDayFrom(dayCount: int, i: nat, isLeap: bool): (r: (int, int))
    requires i <= 12
    ensures 1 <= r.0 <= 12
    decreases 12 - i
  {
    if i == 12 then (1, 0)
    else if dayCount <= MonthTable(isLeap)[i] then (i + 1, dayCount)
    else MonthDayFrom(dayCount - MonthTable(isLeap)[i], i + 1, isLeap)
  }

  /** The (month, day) pair `DayOfYearToMonthDay` returns. */
  function MonthDay(dayOfYear: int, isLeap: bool): (r: (int, int))
    ensures 1 <= r.0 <= 12
  {
    MonthDayFrom(dayOfYear, 0, isLeap)
  }

  /** `DayOfYearToMonthDay`: a scan over the month-length array, which is patched for leap years. */
  method DayOfYearToMonthDay(dayOfYear: int, isLeap: bool) returns (month: int, day: int)
    ensures (month, day) == MonthDay(dayOfYear, isLeap)
  {
    var daysInMonth := new int[12] [31, 28, 31, 30, 31, 30, 31, 31, 30, 31, 30, 31];
    if isLeap {
      daysInMonth[1] := 29;
    }
    var dayCount := dayOfYear;
    month, day := 1, 0;
    var i := 0;
    while i < 12
      invariant 0 <= i <= 12
      invariant daysInMonth[..] == MonthTable(isLeap)
      invariant month == 1 && day == 0
      invariant MonthDayFrom(dayCount, i, isLeap) == MonthDay(dayOfYear, isLeap)
    {
      var days := daysInMonth[i];
      if dayCount <= days {
        month := i + 1;
        day := dayCount;
        break;
      }
      dayCount := dayCount - days;
      i := i + 1;
    }
  }

  lemma {:induction false} MonthDayFromInRange(d: int, i: nat, isLeap: bool)
    requires i <= 12
    requires PrefixSum(MonthTable(isLeap), i) < d <= PrefixSum(MonthTable(isLeap), 12)
    ensures var r := MonthDayFrom(d - PrefixSum(MonthTable(isLeap), i), i, isLeap);
      i < r.0 <= 12 && 1 <= r.1 <= MonthTable(isLeap)[r.0 - 1]
      && PrefixSum(MonthTable(isLeap), r.0 - 1) + r.1 == d
    decreases 12 - i
  {
    var t := MonthTable(isLeap);
    if i == 12 {
      assert false;
    } else if d - PrefixSum(t, i) > t[i] {
      assert PrefixSum(t, i + 1) == PrefixSum(t, i) + t[i];
      MonthDayFromInRange(d, i + 1, isLeap);
    }
  }

  /** A day within the year falls in a real month on a real day of it, and the
      lengths of the months before it plus that day give the day of the year back. */
  lemma MonthDayInRange(d: int, isLeap: bool)
    requires 1 <= d <= YearLength(isLeap)
    ensures var r := MonthDay(d, isLeap);
      1 <= r.0 <= 12 && 1 <= r.1 <= MonthTable(isLeap)[r.0 - 1]
      && PrefixSum(MonthTable(isLeap), r.0 - 1) + r.1 == d
  {
    YearLengthIsMonthTotal(isLeap);
    MonthDayFromInRange(d, 0, isLeap);
  }

  lemma {:induction false} MonthDayFromPastEnd(d: int, i: nat, isLeap: bool)
    requires i <= 12
    requires d > PrefixSum(MonthTable(isLeap), 12)
    ensures MonthDayFrom(d - PrefixSum(MonthTable(isLeap), i), i, isLeap) == (1, 0)
    decreases 12 - i
  {
    var t := MonthTable(isLeap);
    if i < 12 {
      PrefixSumMonotone(t, i + 1, 12);
      assert PrefixSum(t, i + 1) == PrefixSum(t, i) + t[i];
      MonthDayFromPastEnd(d, i + 1, isLeap);
    }
  }

  lemma {:induction false} PrefixSumMonotone(t: seq<int>, i: nat, j: nat)
    requires i <= j <= |t|
    requires forall k :: 0 <= k < |t| ==> t[k] >= 0
    ensures PrefixSum(t, i) <= PrefixSum(t, j)
    decreases j - i
  {
    if i < j {
      PrefixSumMonotone(t, i, j - 1);
    }
  }

  /** Out of range, the scan reports month 1: day `d` itself for d <= 0, day 0
      past the end of the year. The month is therefore never 13, so the
      `month == 13` correction in `Days2mdhms` can never run. */
  lemma MonthDayOutOfRange(d: int, isLeap: bool)
    ensures d <= 0 ==> MonthDay(d, isLeap) == (1, d)
    ensures d > YearLength(isLeap) ==> MonthDay(d, isLeap) == (1, 0)
    ensures MonthDay(d, isLeap).0 != 13
  {
    if d > YearLength(isLeap) {
      YearLengthIsMonthTotal(isLeap);
      MonthDayFromPastEnd(d, 0, isLeap);
    }
  }

  /** The leap flag changes the answer exactly for days 60..366: before
      29 February both tables agree. */
  lemma LeapFlagMattersFromDay60(d: int)
    ensures d < 60 ==> MonthDay(d, true) == MonthDay(d, false)
    ensures 60 <= d <= 366 ==> MonthDay(d, true) != MonthDay(d, false)
  {
    var tl, tn := MonthTable(true), MonthTable(false);
    if d < 60 {
      if d > 31 {
        assert MonthDay(d, true) == MonthDayFrom(d - 31, 1, true);
        assert MonthDay(d, false) == MonthDayFrom(d - 31, 1, false);
      }
    } else if d <= 366 {
      MonthDayInRange(d, true);
      var (m, dd) := MonthDay(d, true);
      if d == 366 {
        MonthDayOutOfRange(d, false);
      } else {
        MonthDayInRange(d, false);
        if MonthDay(d, false) == (m, dd) {
          PrefixLeapShift(m - 1);
          assert false;
        }
      }
    }
  }

  /** Past January, the leap table's prefix sums exceed the common table's by one. */
  lemma {:induction false} PrefixLeapShift(n: nat)
    requires n <= 12
    ensures PrefixSum(MonthTable(true), n) == PrefixSum(MonthTable(false), n) + (if n >= 2 then 1 else 0)
  {
    if n > 0 {
      PrefixLeapShift(n - 1);
    }
  }
}
