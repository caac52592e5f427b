/**
  The TLE records of pkg/tle/tle.go and the fixed-width field extraction of
  `ReadTLELine1`, `ReadTLELine2` and `ParseTLE`, with the `String` rendering.
*/
module Tle {
  import opened Wrappers
  import opened GoStrings
  import opened Utils

  /** `TLELine1`: every field is kept as text. */
  datatype TleLine1 = TleLine1(
    lineNumber: string,
    satelliteId: string,
    classification: string,
    launchYear: string,
    launchNumber: string,
    launchPiece: string,
    epochYear: string,
    epochDay: string,
    firstDerivative: string,
    secondDerivative: string,
    bstar: string,
    ephemerisType: string,
    elementSetNumber: string,
    checksum: string,
    lineString: string)

  /** `TLELine2`. */
  datatype TleLine2 = TleLine2(
    lineNumber: string,
    satelliteId: string,
    inclination: string,
    rightAscension: string,
    eccentricity: string,
    argumentOfPerigee: string,
    meanAnomaly: string,
    meanMotion: string,
    revolutionNumber: string,
    checksum: string,
    lineString: string)

  /** `TLE`: a name, the catalog number and the two parsed lines. */
  datatype TLE = TLE(name: string, noradId: string, line1: TleLine1, line2: TleLine2)

  /** Go's zero values `TLELine1{}`, `TLELine2{}` and `TLE{}`. */
  const EmptyLine1: TleLine1 := TleLine1("", "", "", "", "", "", "", "", "", "", "", "", "", "", "")
  const EmptyLine2: TleLine2 := TleLine2("", "", "", "", "", "", "", "", "", "", "")
  const EmptyTle: TLE := TLE("", "", EmptyLine1, EmptyLine2)

  /** Why reading a line fails. `LineTooShort` is the error the Go code returns;
      the other two stand for run-time panics of the Go code: a slice out of range
      inside `ParseScientificNotation`, and `components[1]` on a "2 " line with a
      single field (raised in the file reader). */
  datatype ParseError = LineTooShort(lineNumber: nat, length: nat) | SliceOutOfRange | IndexOutOfRange

  /** The keys of the line-1 column map. */
  datatype Key1 =
    | LineNumber | SatelliteId | Classification | LaunchYear | LaunchNumber | LaunchPiece
    | EpochYear | EpochDay | FirstDerivative | SecondDerivative | Bstar | EphemerisType
    | ElementSetNumber | Checksum

  /** The keys of the line-2 column map. */
  datatype Key2 =
    | LineNumber | SatelliteId | Inclination | RightAscension | Eccentricity
    | ArgumentOfPerigee | MeanAnomaly | MeanMotion | RevolutionNumber | Checksum

  /** The keys of the line-1 column map. */
  const Line1Keys: set<Key1> := {
    Key1.LineNumber, Key1.SatelliteId, Classification, LaunchYear, LaunchNumber, LaunchPiece,
    EpochYear, EpochDay, FirstDerivative, SecondDerivative, Bstar, EphemerisType,
    ElementSetNumber, Key1.Checksum}

  /** The line-1 column map: 0-based, half-open column ranges. */
  function Line1Column(f: Key1): (pos: (nat, nat))
    ensures pos.0 <= pos.1 <= 69
  {
    match f
    case LineNumber => (0, 1)
    case SatelliteId => (2, 7)
    case Classification => (7, 8)
    case LaunchYear => (9, 11)
    case LaunchNumber => (11, 14)
    case LaunchPiece => (14, 17)
    case EpochYear => (18, 20)
    case EpochDay => (20, 32)
    case FirstDerivative => (33, 43)
    case SecondDerivative => (44, 52)
    case Bstar => (53, 61)
    case EphemerisType => (62, 63)
    case ElementSetNumber => (64, 68)
    case Checksum => (68, 69)
  }

  /** The keys of the line-2 column map. */
  const Line2Keys: set<Key2> := {
    Key2.LineNumber, Key2.SatelliteId, Inclination, RightAscension, Eccentricity,
    ArgumentOfPerigee, MeanAnomaly, MeanMotion, RevolutionNumber, Key2.Checksum}

  /** The line-2 column map. */
  function Line2Column(f: Key2): (pos: (nat, nat))
    ensures pos.0 <= pos.1 <= 69
  {
    match f
    case LineNumber => (0, 1)
    case SatelliteId => (2, 7)
    case Inclination => (8, 16)
    case RightAscension => (17, 25)
    case Eccentricity => (26, 33)
    case ArgumentOfPerigee => (34, 42)
    case MeanAnomaly => (43, 51)
    case MeanMotion => (52, 63)
    case RevolutionNumber => (63, 68)
    case Checksum => (68, 69)
  }

  /** Trimmed text of columns [a, b). */
  function Column(line: string, a: nat, b: nat): string
    requires a <= b <= |line|
  {
    TrimSpace(line[a..b])
  }

  // ---------------------------------------------------------------------------
  // Line 1
  // ---------------------------------------------------------------------------

  /** The values the column switch of `ReadTLELine1` stores, field by field:
      the columns trimmed, the two derivatives and Bstar normalised (a panic of
      the normaliser shows as an empty text here and is reported by Line1Of),
      the line number never filled in, and the raw line kept. */
  function Line1Values(line: string): TleLine1
    requires |line| >= 69
  {
    TleLine1(
      lineNumber := "",
      satelliteId := Column(line, 2, 7),
      classification := Column(line, 7, 8),
      launchYear := Column(line, 9, 11),
      launchNumber := Column(line, 11, 14),
      launchPiece := Column(line, 14, 17),
      epochYear := Column(line, 18, 20),
      epochDay := Column(line, 20, 32),
      firstDerivative := ParseScientificNotation(Column(line, 33, 43)).GetOr(""),
      secondDerivative := ParseScientificNotation(Column(line, 44, 52)).GetOr(""),
      bstar := ParseScientificNotation(Column(line, 53, 61)).GetOr(""),
      ephemerisType := Column(line, 62, 63),
      elementSetNumber := Column(line, 64, 68),
      checksum := Column(line, 68, 69),
      lineString := line)
  }

  /** None of the three normalised fields makes the Go code panic. */
  predicate NotationOk1(line: string)
    requires |line| >= 69
  {
    && ParseScientificNotation(Column(line, 33, 43)).Some?
    && ParseScientificNotation(Column(line, 44, 52)).Some?
    && ParseScientificNotation(Column(line, 53, 61)).Some?
  }

  /** The normalised fields outside `pending` do not make the Go code panic. */
  predicate NotationOkExcept1(line: string, pending: set<Key1>)
    requires |line| >= 69
  {
    && (FirstDerivative in pending || ParseScientificNotation(Column(line, 33, 43)).Some?)
    && (SecondDerivative in pending || ParseScientificNotation(Column(line, 44, 52)).Some?)
    && (Bstar in pending || ParseScientificNotation(Column(line, 53, 61)).Some?)
  }

  /** Line 1 as `ReadTLELine1` returns it. */
  function Line1Of(line: string): (r: Result<TleLine1, ParseError>)
    ensures r == Err(LineTooShort(1, |line|)) <==> |line| < 69
    ensures |line| >= 69 ==> r.Ok? || r == Err(SliceOutOfRange)
    ensures r.Ok? ==> r.value.lineString == line && r.value.lineNumber == ""
  {
    if |line| < 69 then Err(LineTooShort(1, |line|))
    else if !NotationOk1(line) then Err(SliceOutOfRange)
    else Ok(Line1Values(line))
  }

  /** The field of a line-1 record that a key names; the line number, which no
      case of the switch fills in, reads as its zero value. */
  function Get1(t: TleLine1, f: Key1): string {
    match f
    case SatelliteId => t.satelliteId
    case Classification => t.classification
    case LaunchYear => t.launchYear
    case LaunchNumber => t.launchNumber
    case LaunchPiece => t.launchPiece
    case EpochYear => t.epochYear
    case EpochDay => t.epochDay
    case FirstDerivative => t.firstDerivative
    case SecondDerivative => t.secondDerivative
    case Bstar => t.bstar
    case EphemerisType => t.ephemerisType
    case ElementSetNumber => t.elementSetNumber
    case Checksum => t.checksum
    case LineNumber => ""
  }

  /** One case of the column switch of `ReadTLELine1`: the field that a key names
      set to `v`; keys without a case leave the record alone. */
  function Set1(t: TleLine1, f: Key1, v: string): TleLine1 {
    match f
    case SatelliteId => t.(satelliteId := v)
    case Classification => t.(classification := v)
    case LaunchYear => t.(launchYear := v)
    case LaunchNumber => t.(launchNumber := v)
    case LaunchPiece => t.(launchPiece := v)
    case EpochYear => t.(epochYear := v)
    case EpochDay => t.(epochDay := v)
    case FirstDerivative => t.(firstDerivative := v)
    case SecondDerivative => t.(secondDerivative := v)
    case Bstar => t.(bstar := v)
    case EphemerisType => t.(ephemerisType := v)
    case ElementSetNumber => t.(elementSetNumber := v)
    case Checksum => t.(checksum := v)
    case LineNumber => t
  }

  /** `full` with the fields still in `pending` at their zero value "". */
  function Mask1(full: TleLine1, pending: set<Key1>): TleLine1 {
    TleLine1(
      lineNumber := full.lineNumber,
      satelliteId := if Key1.SatelliteId in pending then "" else full.satelliteId,
      classification := if Classification in pending then "" else full.classification,
      launchYear := if LaunchYear in pending then "" else full.launchYear,
      launchNumber := if LaunchNumber in pending then "" else full.launchNumber,
      launchPiece := if LaunchPiece in pending then "" else full.launchPiece,
      epochYear := if EpochYear in pending then "" else full.epochYear,
      epochDay := if EpochDay in pending then "" else full.epochDay,
      firstDerivative := if FirstDerivative in pending then "" else full.firstDerivative,
      secondDerivative := if SecondDerivative in pending then "" else full.secondDerivative,
      bstar := if Bstar in pending then "" else full.bstar,
      ephemerisType := if EphemerisType in pending then "" else full.ephemerisType,
      elementSetNumber := if ElementSetNumber in pending then "" else full.elementSetNumber,
      checksum := if Key1.Checksum in pending then "" else full.checksum,
      lineString := full.lineString)
  }

  /** Visiting one pending key and storing its value unmasks exactly that field. */
  lemma Mask1Step(full: TleLine1, pending: set<Key1>, f: Key1)
    requires f in pending
    ensures Set1(Mask1(full, pending), f, Get1(full, f)) == Mask1(full, pending - {f})
  {
    match f
    case SatelliteId => case Classification => case LaunchYear => case LaunchNumber =>
    case LaunchPiece => case EpochYear => case EpochDay => case FirstDerivative =>
    case SecondDerivative => case Bstar => case EphemerisType => case ElementSetNumber =>
    case Checksum => case LineNumber =>
  }

  /** The three keys whose value goes through the normaliser. */
  predicate IsNotationKey(f: Key1) {
    f == FirstDerivative || f == SecondDerivative || f == Bstar
  }

  /** One turn of the loop of `ReadTLELine1` keeps its invariant, or finds the
      normaliser panicking, which `Line1Of` reports too. */
  lemma Visit1Step(line: string, pending: set<Key1>, f: Key1)
    requires |line| >= 69 && f in pending && NotationOkExcept1(line, pending)
    ensures var pos := Line1Column(f); var v := TrimSpace(line[pos.0..pos.1]);
      var full := Line1Values(line);
      if IsNotationKey(f) then
        match ParseScientificNotation(v)
        case None => !NotationOk1(line)
        case Some(n) =>
          Set1(Mask1(full, pending), f, n) == Mask1(full, pending - {f}) && NotationOkExcept1(line, pending - {f})
      else
        Set1(Mask1(full, pending), f, v) == Mask1(full, pending - {f}) && NotationOkExcept1(line, pending - {f})
  {
    Mask1Step(Line1Values(line), pending, f);
    Line1Get(line, f);
  }

  /** The value stored for a key is its trimmed column, normalised for the
      three fields in scientific notation. */
  lemma Line1Get(line: string, f: Key1)
    requires |line| >= 69
    ensures var pos := Line1Column(f); var v := Column(line, pos.0, pos.1);
      Get1(Line1Values(line), f) ==
        if IsNotationKey(f) then ParseScientificNotation(v).GetOr("")
        else if f == Key1.LineNumber then ""
        else v
  {
  }

  /** `ReadTLELine1`. The Go code ranges over a map, whose iteration order is
      unspecified; the loop here takes the remaining keys in an arbitrary order,
      so the postcondition holds whatever order the map yields. */
  method ReadTleLine1(line: string) returns (r: Result<TleLine1, ParseError>)
    ensures r == Line1Of(line)
  {
    if |line| < 69 {
      return Err(LineTooShort(1, |line|));
    }
    var tleLine1 := EmptyLine1.(lineString := line);
    var remaining := Line1Keys;
    ghost var full := Line1Values(line);
    while remaining != {}
      invariant tleLine1 == Mask1(full, remaining)
      invariant NotationOkExcept1(line, remaining)
      decreases |remaining|
    {
      var field :| field in remaining;
      var pos := Line1Column(field);
      var value := TrimSpace(line[pos.0..pos.1]);
      Visit1Step(line, remaining, field);
      if IsNotationKey(field) {
        var p := ParseScientificNotation(value);
        if p.None? {
          return Err(SliceOutOfRange);
        }
        value := p.value;
      }
      tleLine1 := Set1(tleLine1, field, value);
      remaining := remaining - {field};
    }
    return Ok(tleLine1);
  }

  // ---------------------------------------------------------------------------
  // Line 2
  // ---------------------------------------------------------------------------

  /** Line 2 as the Go code leaves it: the columns trimmed, "0." put before the
      eccentricity digits, the line number never filled in, the raw line kept. */
  function Line2Of(line: string): (r: Result<TleLine2, ParseError>)
    ensures r.Err? <==> |line| < 69
    ensures r.Err? ==> r.error == LineTooShort(2, |line|)
    ensures r.Ok? ==> r.value.lineString == line && r.value.lineNumber == ""
  {
    if |line| < 69 then Err(LineTooShort(2, |line|))
    else Ok(Line2Values(line))
  }

  /** The values the column switch of `ReadTLELine2` stores, field by field. */
  function Line2Values(line: string): TleLine2
    requires |line| >= 69
  {
    TleLine2(
      lineNumber := "",
      satelliteId := Column(line, 2, 7),
      inclination := Column(line, 8, 16),
      rightAscension := Column(line, 17, 25),
      eccentricity := "0." + Column(line, 26, 33),
      argumentOfPerigee := Column(line, 34, 42),
      meanAnomaly := Column(line, 43, 51),
      meanMotion := Column(line, 52, 63),
      revolutionNumber := Column(line, 63, 68),
      checksum := Column(line, 68, 69),
      lineString := line)
  }

  /** The field of a line-2 record that a key names. */
  function Get2(t: TleLine2, f: Key2): string {
    match f
    case SatelliteId => t.satelliteId
    case Inclination => t.inclination
    case RightAscension => t.rightAscension
    case Eccentricity => t.eccentricity
    case ArgumentOfPerigee => t.argumentOfPerigee
    case MeanAnomaly => t.meanAnomaly
    case MeanMotion => t.meanMotion
    case RevolutionNumber => t.revolutionNumber
    case Checksum => t.checksum
    case LineNumber => ""
  }

  /** One case of the column switch of `ReadTLELine2`. */
  function Set2(t: TleLine2, f: Key2, v: string): TleLine2 {
    match f
    case SatelliteId => t.(satelliteId := v)
    case Inclination => t.(inclination := v)
    case RightAscension => t.(rightAscension := v)
    case Eccentricity => t.(eccentricity := v)
    case ArgumentOfPerigee => t.(argumentOfPerigee := v)
    case MeanAnomaly => t.(meanAnomaly := v)
    case MeanMotion => t.(meanMotion := v)
    case RevolutionNumber => t.(revolutionNumber := v)
    case Checksum => t.(checksum := v)
    case LineNumber => t
  }

  /** `full` with the fields still in `pending` at their zero value "". */
  function Mask2(full: TleLine2, pending: set<Key2>): TleLine2 {
    TleLine2(
      lineNumber := full.lineNumber,
      satelliteId := if Key2.SatelliteId in pending then "" else full.satelliteId,
      inclination := if Inclination in pending then "" else full.inclination,
      rightAscension := if RightAscension in pending then "" else full.rightAscension,
      eccentricity := if Eccentricity in pending then "" else full.eccentricity,
      argumentOfPerigee := if ArgumentOfPerigee in pending then "" else full.argumentOfPerigee,
      meanAnomaly := if MeanAnomaly in pending then "" else full.meanAnomaly,
      meanMotion := if MeanMotion in pending then "" else full.meanMotion,
      revolutionNumber := if RevolutionNumber in pending then "" else full.revolutionNumber,
      checksum := if Key2.Checksum in pending then "" else full.checksum,
      lineString := full.lineString)
  }

  /** Visiting one pending key and storing its value unmasks exactly that field. */
  lemma Mask2Step(full: TleLine2, pending: set<Key2>, f: Key2)
    requires f in pending
    ensures Set2(Mask2(full, pending), f, Get2(full, f)) == Mask2(full, pending - {f})
  {
    match f
    case SatelliteId => case Inclination => case RightAscension => case Eccentricity =>
    case ArgumentOfPerigee => case MeanAnomaly => case MeanMotion => case RevolutionNumber =>
    case Checksum => case LineNumber =>
  }

  /** The value stored for a key is its trimmed column, with "0." put before
      the eccentricity. */
  lemma Line2Get(line: string, f: Key2)
    requires |line| >= 69
    ensures var pos := Line2Column(f); var v := Column(line, pos.0, pos.1);
      Get2(Line2Values(line), f) ==
        if f == Eccentricity then "0." + v
        else if f == Key2.LineNumber then ""
        else v
  {
  }

  /** `ReadTLELine2`, over the keys of its column map in an arbitrary order. */
  method ReadTleLine2(line: string) returns (r: Result<TleLine2, ParseError>)
    ensures r == Line2Of(line)
  {
    if |line| < 69 {
      return Err(LineTooShort(2, |line|));
    }
    var tleLine2 := EmptyLine2.(lineString := line);
    var remaining := Line2Keys;
    ghost var full := Line2Values(line);
    while remaining != {}
      invariant tleLine2 == Mask2(full, remaining)
      decreases |remaining|
    {
      var field :| field in remaining;
      var pos := Line2Column(field);
      var value := TrimSpace(line[pos.0..pos.1]);
      Mask2Step(full, remaining, field);
      Line2Get(line, field);
      match field {
        case SatelliteId => tleLine2 := tleLine2.(satelliteId := value);
        case Inclination => tleLine2 := tleLine2.(inclination := value);
        case RightAscension => tleLine2 := tleLine2.(rightAscension := value);
        case Eccentricity => tleLine2 := tleLine2.(eccentricity := "0." + value);
        case ArgumentOfPerigee => tleLine2 := tleLine2.(argumentOfPerigee := value);
        case MeanAnomaly => tleLine2 := tleLine2.(meanAnomaly := value);
        case MeanMotion => tleLine2 := tleLine2.(meanMotion := value);
        case RevolutionNumber => tleLine2 := tleLine2.(revolutionNumber := value);
        case Checksum => tleLine2 := tleLine2.(checksum := value);
        case LineNumber =>
      }
      remaining := remaining - {field};
    }
    return Ok(tleLine2);
  }

  // ---------------------------------------------------------------------------
  // Whole records
  // ---------------------------------------------------------------------------

  /** `ParseTLE`: line 1 is read before line 2, the name is kept verbatim and the
      catalog number is left empty. */
  function ParseTle(line1: string, line2: string, name: string): (r: Result<TLE, ParseError>)
    ensures |line1| < 69 ==> r == Err(LineTooShort(1, |line1|))
    ensures |line1| >= 69 && |line2| < 69 ==> r.Err? && r.error != LineTooShort(1, |line1|)
    ensures r.Ok? ==> |line1| >= 69 && |line2| >= 69
    ensures r.Ok? ==> r.value.name == name && r.value.noradId == ""
    ensures r.Ok? ==> r.value.line1.lineString == line1 && r.value.line2.lineString == line2
    ensures r.Ok? ==> Line1Of(line1) == Ok(r.value.line1) && Line2Of(line2) == Ok(r.value.line2)
    ensures r.Ok? <==> Line1Of(line1).Ok? && Line2Of(line2).Ok?
    ensures Line1Of(line1).Err? ==> r == Err(Line1Of(line1).error)
    ensures Line1Of(line1).Ok? && |line2| < 69 ==> r == Err(LineTooShort(2, |line2|))
  {
    match Line1Of(line1)
    case Err(e) => Err(e)
    case Ok(l1) =>
      match Line2Of(line2)
      case Err(e) => Err(e)
      case Ok(l2) => Ok(TLE(name, "", l1, l2))
  }

  // ---------------------------------------------------------------------------
  // Column layout
  // ---------------------------------------------------------------------------

  /** A line 1 written column by column: the line number, the thirteen field
      texts at their widths and the single blanks between them. */
  function Layout1(sat: string, cls: string, ly: string, ln: string, lp: string, ey: string, ed: string,
                   fd: string, sd: string, bs: string, et: string, esn: string, cs: string): string
  {
    "1 " + sat + cls + " " + ly + ln + lp + " " + ey + ed + " " + fd + " " + sd + " " + bs + " " + et + " " + esn + cs
  }

  /** A line 2 written column by column. */
  function Layout2(sat: string, incl: string, raan: string, ecc: string, argp: string, ma: string,
                   mm: string, rev: string, cs: string): string
  {
    "2 " + sat + " " + incl + " " + raan + " " + ecc + " " + argp + " " + ma + " " + mm + rev + cs
  }

  /** Reading a line 1 laid out column by column gives back each column's text
      trimmed, the three notation fields normalised, or the normaliser's panic. */
  lemma Line1OfLayout(sat: string, cls: string, ly: string, ln: string, lp: string, ey: string, ed: string,
                      fd: string, sd: string, bs: string, et: string, esn: string, cs: string)
    requires |sat| == 5 && |cls| == 1 && |ly| == 2 && |ln| == 3 && |lp| == 3 && |ey| == 2 && |ed| == 12
    requires |fd| == 10 && |sd| == 8 && |bs| == 8 && |et| == 1 && |esn| == 4 && |cs| == 1
    ensures var line := Layout1(sat, cls, ly, ln, lp, ey, ed, fd, sd, bs, et, esn, cs);
      var n1 := ParseScientificNotation(TrimSpace(fd));
      var n2 := ParseScientificNotation(TrimSpace(sd));
      var n3 := ParseScientificNotation(TrimSpace(bs));
      Line1Of(line) ==
        if n1.Some? && n2.Some? && n3.Some? then
          Ok(TleLine1("", TrimSpace(sat), TrimSpace(cls), TrimSpace(ly), TrimSpace(ln), TrimSpace(lp),
            TrimSpace(ey), TrimSpace(ed), n1.value, n2.value, n3.value, TrimSpace(et), TrimSpace(esn),
            TrimSpace(cs), line))
        else Err(SliceOutOfRange)
  {
    var line := Layout1(sat, cls, ly, ln, lp, ey, ed, fd, sd, bs, et, esn, cs);
    assert line[2..7] == sat;
    assert line[7..8] == cls;
    assert line[9..11] == ly;
    assert line[11..14] == ln;
    assert line[14..17] == lp;
    assert line[18..20] == ey;
    assert line[20..32] == ed;
    assert line[33..43] == fd;
    assert line[44..52] == sd;
    assert line[53..61] == bs;
    assert line[62..63] == et;
    assert line[64..68] == esn;
    assert line[68..69] == cs;
  }

  /** Reading a line 2 laid out column by column gives back each column's text
      trimmed, with "0." before the eccentricity. */
  lemma Line2OfLayout(sat: string, incl: string, raan: string, ecc: string, argp: string, ma: string,
                      mm: string, rev: string, cs: string)
    requires |sat| == 5 && |incl| == 8 && |raan| == 8 && |ecc| == 7 && |argp| == 8 && |ma| == 8
    requires |mm| == 11 && |rev| == 5 && |cs| == 1
    ensures var line := Layout2(sat, incl, raan, ecc, argp, ma, mm, rev, cs);
      Line2Of(line) == Ok(TleLine2("", TrimSpace(sat), TrimSpace(incl), TrimSpace(raan), "0." + TrimSpace(ecc),
        TrimSpace(argp), TrimSpace(ma), TrimSpace(mm), TrimSpace(rev), TrimSpace(cs), line))
  {
    var line := Layout2(sat, incl, raan, ecc, argp, ma, mm, rev, cs);
    assert line[2..7] == sat;
    assert line[8..16] == incl;
    assert line[17..25] == raan;
    assert line[26..33] == ecc;
    assert line[34..42] == argp;
    assert line[43..51] == ma;
    assert line[52..63] == mm;
    assert line[63..68] == rev;
    assert line[68..69] == cs;
  }

  // ---------------------------------------------------------------------------
  // The example record of pkg/tle/tle.go
  // ---------------------------------------------------------------------------

  const IssName: string := "ISS (ZARYA)"

  /** "1 25544U 98067A   08264.51782528 -.00002182  00000-0 -11606-4 0  2927", column by column. */
  const IssLine1: string :=
    Layout1("25544", "U", "98", "067", "A  ", "08", "264.51782528", "-.00002182", " 00000-0", "-11606-4", "0", " 292", "7")

  /** "2 25544  51.6416 247.4627 0006703 130.5360 325.0288 15.72125391563537", column by column. */
  const IssLine2: string :=
    Layout2("25544", " 51.6416", "247.4627", "0006703", "130.5360", "325.0288", "15.72125391", "56353", "7")

  /** Line 1 of the example record as `ReadTLELine1` reads it. */
  lemma IssLine1Fields()
    ensures Line1Of(IssLine1) == Ok(TleLine1("", "25544", "U", "98", "067", "A", "08", "264.51782528",
      "-.000021e82", "0.0000e-0", "-.11606e-4", "0", "292", "7", IssLine1))
  {
    var e: string := [];
    assert TrimSpace("A  ") == "A" by {
      assert e + "A" + "  " == "A  ";
      TrimSpaceOfPadded(e, "A", "  ");
    }
    assert TrimSpace(" 00000-0") == "00000-0" by {
      assert " " + "00000-0" + e == " 00000-0";
      TrimSpaceOfPadded(" ", "00000-0", e);
    }
    assert TrimSpace(" 292") == "292" by {
      assert " " + "292" + e == " 292";
      TrimSpaceOfPadded(" ", "292", e);
    }
    assert TrimSpace("25544") == "25544" by { TrimSpaceOfTrimmed("25544"); }
    assert TrimSpace("U") == "U" by { TrimSpaceOfTrimmed("U"); }
    assert TrimSpace("98") == "98" by { TrimSpaceOfTrimmed("98"); }
    assert TrimSpace("067") == "067" by { TrimSpaceOfTrimmed("067"); }
    assert TrimSpace("08") == "08" by { TrimSpaceOfTrimmed("08"); }
    assert TrimSpace("264.51782528") == "264.51782528" by { TrimSpaceOfTrimmed("264.51782528"); }
    assert TrimSpace("-.00002182") == "-.00002182" by { TrimSpaceOfTrimmed("-.00002182"); }
    assert TrimSpace("-11606-4") == "-11606-4" by { TrimSpaceOfTrimmed("-11606-4"); }
    assert TrimSpace("0") == "0" by { TrimSpaceOfTrimmed("0"); }
    assert TrimSpace("7") == "7" by { TrimSpaceOfTrimmed("7"); }
    ScientificNotationExamples();
    Line1OfLayout("25544", "U", "98", "067", "A  ", "08", "264.51782528", "-.00002182", " 00000-0", "-11606-4", "0", " 292", "7");
  }

  /** Line 2 of the example record as `ReadTLELine2` reads it. */
  lemma IssLine2Fields()
    ensures Line2Of(IssLine2) == Ok(TleLine2("", "25544", "51.6416", "247.4627", "0.0006703", "130.5360",
      "325.0288", "15.72125391", "56353", "7", IssLine2))
  {
    var e: string := [];
    assert TrimSpace(" 51.6416") == "51.6416" by {
      assert " " + "51.6416" + e == " 51.6416";
      TrimSpaceOfPadded(" ", "51.6416", e);
    }
    assert TrimSpace("0006703") == "0006703" && "0." + "0006703" == "0.0006703" by {
      TrimSpaceOfTrimmed("0006703");
    }
    assert TrimSpace("25544") == "25544" by { TrimSpaceOfTrimmed("25544"); }
    assert TrimSpace("247.4627") == "247.4627" by { TrimSpaceOfTrimmed("247.4627"); }
    assert TrimSpace("130.5360") == "130.5360" by { TrimSpaceOfTrimmed("130.5360"); }
    assert TrimSpace("325.0288") == "325.0288" by { TrimSpaceOfTrimmed("325.0288"); }
    assert TrimSpace("15.72125391") == "15.72125391" by { TrimSpaceOfTrimmed("15.72125391"); }
    assert TrimSpace("56353") == "56353" by { TrimSpaceOfTrimmed("56353"); }
    assert TrimSpace("7") == "7" by { TrimSpaceOfTrimmed("7"); }
    Line2OfLayout("25544", " 51.6416", "247.4627", "0006703", "130.5360", "325.0288", "15.72125391", "56353", "7");
  }

  /** `TLE.String`: name, line 1 and line 2, separated by newlines. When none of
      the three holds a newline, splitting the text at newlines gives them back. */
  function TleString(t: TLE): (r: string)
    ensures '\n' !in t.name && '\n' !in t.line1.lineString && '\n' !in t.line2.lineString ==>
      Split(r, '\n') == [t.name, t.line1.lineString, t.line2.lineString]
  {
    var r := t.name + ("\n" + (t.line1.lineString + ("\n" + t.line2.lineString)));
    if '\n' !in t.name && '\n' !in t.line1.lineString && '\n' !in t.line2.lineString then
      SplitThree(t.name, t.line1.lineString, t.line2.lineString, '\n');
      r
    else r
  }
}
