/**
  The record assembly loop of `ReadTLEFile`: lines are taken in order; a line
  starting with "1 " becomes line 1 of the record being built, a line starting
  with "2 " completes the record, which is appended and replaced by an empty
  one, and any other line becomes the record's name. Opening the file and the
  line scanner are replaced by the sequence of lines they would deliver.
*/
module TleFile {
  import opened Wrappers
  import opened GoStrings
  import opened Tle

  /** The loop's variables between two lines: the records so far and the one being built. */
  datatype Reader = Reader(tles: seq<TLE>, current: TLE)

  const Start: Reader := Reader([], EmptyTle)

  /** One pass of the loop body; an error stands for the early `return nil, err`,
      and `IndexOutOfRange` for the panic of `components[1]` on a "2 " line with
      a single field. */
  function Step(rd: Reader, line: string): (r: Result<Reader, ParseError>)
    ensures r.Err? <==> ((HasPrefix(line, "1 ") && Line1Of(line).Err?)
      || (!HasPrefix(line, "1 ") && HasPrefix(line, "2 ") && (|Fields(line)| < 2 || |line| < 69)))
    ensures r.Ok? && !HasPrefix(line, "1 ") && HasPrefix(line, "2 ") ==>
      r.value.tles == rd.tles + [rd.current.(noradId := Fields(line)[1], line2 := Line2Of(line).value)]
      && r.value.current == EmptyTle
    ensures r.Ok? && (HasPrefix(line, "1 ") || !HasPrefix(line, "2 ")) ==>
      r.value.tles == rd.tles && r.value.current.noradId == rd.current.noradId
      && r.value.current.line2 == rd.current.line2
  {
    if HasPrefix(line, "1 ") then
      match Line1Of(line)
      case Err(e) => Err(e)
      case Ok(l1) => Ok(rd.(current := rd.current.(line1 := l1)))
    else if HasPrefix(line, "2 ") then
      var components := Fields(line);
      if |components| < 2 then Err(IndexOutOfRange)
      else
        match Line2Of(line)
        case Err(e) => Err(e)
        case Ok(l2) => Ok(Reader(rd.tles + [rd.current.(noradId := components[1], line2 := l2)], EmptyTle))
    else
      Ok(rd.(current := rd.current.(name := TrimSpace(line))))
  }

  /** The loop run over `lines` from `rd`, stopping at the first error. */
  function Fold(rd: Reader, lines: seq<string>): (r: Result<Reader, ParseError>)
    ensures r.Ok? ==> rd.tles <= r.value.tles && |r.value.tles| <= |rd.tles| + |lines|
    decreases |lines|
  {
    if lines == [] then Ok(rd)
    else
      match Fold(rd, lines[..|lines| - 1])
      case Err(e) => Err(e)
      case Ok(r) => Step(r, lines[|lines| - 1])
  }

  /** What `ReadTLEFile` returns for a file made of `lines`. */
  function TlesOf(lines: seq<string>): (r: Result<seq<TLE>, ParseError>)
    ensures r.Ok? ==> |r.value| <= |lines|
  {
    match Fold(Start, lines)
    case Err(e) => Err(e)
    case Ok(rd) => Ok(rd.tles)
  }

  /** The loop of `ReadTLEFile`. */
  method ReadTleFile(lines: seq<string>) returns (r: Result<seq<TLE>, ParseError>)
    ensures r == TlesOf(lines)
  {
    var tles: seq<TLE> := [];
    var currentTle := EmptyTle;
    for i := 0 to |lines|
      invariant Fold(Start, lines[..i]) == Ok(Reader(tles, currentTle))
    {
      var line := lines[i];
      assert lines[..i + 1][..i] == lines[..i];
      if HasPrefix(line, "1 ") {
        var l1 := ReadTleLine1(line);
        if l1.Err? {
          AbortIsFinal(Start, lines, i + 1);
          return Err(l1.error);
        }
        currentTle := currentTle.(line1 := l1.value);
      } else if HasPrefix(line, "2 ") {
        var components := Fields(line);
        if |components| < 2 {
          AbortIsFinal(Start, lines, i + 1);
          return Err(IndexOutOfRange);
        }
        currentTle := currentTle.(noradId := components[1]);
        var l2 := ReadTleLine2(line);
        if l2.Err? {
          AbortIsFinal(Start, lines, i + 1);
          return Err(l2.error);
        }
        currentTle := currentTle.(line2 := l2.value);
        tles := tles + [currentTle];
        currentTle := EmptyTle;
      } else {
        currentTle := currentTle.(name := TrimSpace(line));
      }
    }
    assert lines[..|lines|] == lines;
    return Ok(tles);
  }

  // ---------------------------------------------------------------------------
  // Running the loop in pieces
  // ---------------------------------------------------------------------------

  /** Running over `a + b` is running over `a` and then over `b`. */
  lemma {:induction false} FoldAppend(rd: Reader, a: seq<string>, b: seq<string>)
    ensures Fold(rd, a + b) == match Fold(rd, a) case Err(e) => Err(e) case Ok(r) => Fold(r, b)
    decreases |b|
  {
    if b == [] {
      assert a + b == a;
    } else {
      var ab := a + b;
      assert ab[..|ab| - 1] == a + b[..|b| - 1];
      assert ab[|ab| - 1] == b[|b| - 1];
      FoldAppend(rd, a, b[..|b| - 1]);
    }
  }

  /** Once a line fails, the read fails with that line's error, whatever follows. */
  lemma AbortIsFinal(rd: Reader, lines: seq<string>, n: nat)
    requires n <= |lines|
    requires Fold(rd, lines[..n]).Err?
    ensures Fold(rd, lines) == Fold(rd, lines[..n])
  {
    assert lines == lines[..n] + lines[n..];
    FoldAppend(rd, lines[..n], lines[n..]);
  }

  // ---------------------------------------------------------------------------
  // Properties of the assembled records
  // ---------------------------------------------------------------------------

  /** The lines of a file that start with "2 ", in order. */
  function SecondLines(lines: seq<string>): seq<string>
    decreases |lines|
  {
    if lines == [] then []
    else
      var rest := SecondLines(lines[..|lines| - 1]);
      if HasPrefix(lines[|lines| - 1], "2 ") then rest + [lines[|lines| - 1]] else rest
  }

  /** The raw line 2 of each record, in order. */
  function Line2Texts(tles: seq<TLE>): (r: seq<string>)
    ensures |r| == |tles|
  {
    if tles == [] then [] else Line2Texts(tles[..|tles| - 1]) + [tles[|tles| - 1].line2.lineString]
  }

  lemma Line2TextsAppend(tles: seq<TLE>, t: TLE)
    ensures Line2Texts(tles + [t]) == Line2Texts(tles) + [t.line2.lineString]
  {
    assert (tles + [t])[..|tles|] == tles;
  }

  /** A successful read yields one record per "2 " line, in file order, each
      holding that line as its line 2. */
  lemma {:induction false} OneRecordPerSecondLine(lines: seq<string>)
    requires TlesOf(lines).Ok?
    ensures Line2Texts(TlesOf(lines).value) == SecondLines(lines)
    ensures |TlesOf(lines).value| == |SecondLines(lines)|
    decreases |lines|
  {
    if lines != [] {
      var init := lines[..|lines| - 1];
      var line := lines[|lines| - 1];
      OneRecordPerSecondLine(init);
      var rd := Fold(Start, init).value;
      if HasPrefix(line, "2 ") {
        Line2TextsAppend(rd.tles, Fold(Start, lines).value.tles[|rd.tles|]);
        assert Fold(Start, lines).value.tles == rd.tles + [Fold(Start, lines).value.tles[|rd.tles|]];
      }
    }
  }

  /** A "1 " or "2 " line that is too short to hold its columns fails the whole
      read, when the lines before it were read without error: a "2 " line with a
      single field fails at `components[1]` before its length is checked. */
  lemma ShortLineAborts(lines: seq<string>, k: nat)
    requires k < |lines| && TlesOf(lines[..k]).Ok?
    requires HasPrefix(lines[k], "1 ") || HasPrefix(lines[k], "2 ")
    requires |lines[k]| < 69
    ensures TlesOf(lines).Err?
    ensures HasPrefix(lines[k], "1 ") ==> TlesOf(lines) == Err(LineTooShort(1, |lines[k]|))
    ensures HasPrefix(lines[k], "2 ") && |Fields(lines[k])| >= 2 ==> TlesOf(lines) == Err(LineTooShort(2, |lines[k]|))
    ensures HasPrefix(lines[k], "2 ") && |Fields(lines[k])| < 2 ==> TlesOf(lines) == Err(IndexOutOfRange)
  {
    assert lines[..k + 1][..k] == lines[..k];
    AbortIsFinal(Start, lines, k + 1);
  }

  /** Lines that do not complete a record: no "2 " line, and every "1 " line readable. */
  predicate OpenLines(block: seq<string>) {
    forall k :: 0 <= k < |block| ==>
      !HasPrefix(block[k], "2 ") && (HasPrefix(block[k], "1 ") ==> Line1Of(block[k]).Ok?)
  }

  /** The name a record ends up with after `block`: the last line that is neither
      a "1 " nor a "2 " line, trimmed, or `name` if there is none. */
  function LastName(block: seq<string>, name: string): string
    decreases |block|
  {
    if block == [] then name
    else
      var line := block[|block| - 1];
      if !HasPrefix(line, "1 ") && !HasPrefix(line, "2 ") then TrimSpace(line)
      else LastName(block[..|block| - 1], name)
  }

  /** The line 1 a record ends up with after `block`: the last "1 " line, read,
      or `l1` if there is none. */
  function LastLine1(block: seq<string>, l1: TleLine1): TleLine1
    decreases |block|
  {
    if block == [] then l1
    else
      var line := block[|block| - 1];
      if HasPrefix(line, "1 ") then (match Line1Of(line) case Ok(v) => v case Err(_) => l1)
      else LastLine1(block[..|block| - 1], l1)
  }

  /** Lines before a "2 " line only overwrite the name and line 1 of the record
      being built; the later of two such lines wins. */
  lemma {:induction false} FoldOpenLines(rd: Reader, block: seq<string>)
    requires OpenLines(block)
    ensures Fold(rd, block) == Ok(Reader(rd.tles, rd.current.(name := LastName(block, rd.current.name),
                                                               line1 := LastLine1(block, rd.current.line1))))
    decreases |block|
  {
    if block != [] {
      var init := block[..|block| - 1];
      assert OpenLines(init) by {
        forall k | 0 <= k < |init| ensures !HasPrefix(init[k], "2 ") && (HasPrefix(init[k], "1 ") ==> Line1Of(init[k]).Ok?) {
          assert init[k] == block[k];
        }
      }
      FoldOpenLines(rd, init);
    }
  }

  /** A "2 " line appends the record built from the lines since the previous
      record, its catalog number being the line's second field, and starts an
      empty record: the name and line 1 of one record never leak into the next. */
  lemma AssembleRecord(rd: Reader, block: seq<string>, line2: string)
    requires OpenLines(block)
    requires HasPrefix(line2, "2 ") && |line2| >= 69 && |Fields(line2)| >= 2
    ensures Fold(rd, block + [line2]) == Ok(Reader(rd.tles + [TLE(LastName(block, rd.current.name), Fields(line2)[1],
                                                                   LastLine1(block, rd.current.line1), Line2Of(line2).value)],
                                                   EmptyTle))
  {
    FoldOpenLines(rd, block);
    FoldAppend(rd, block, [line2]);
    assert Fold(Fold(rd, block).value, [line2]) == Step(Fold(rd, block).value, line2);
  }

  /** A blank (or all white space) line other than a "1 "/"2 " line clears the name. */
  lemma BlankLineClearsName(rd: Reader, line: string)
    requires AllSpace(line)
    ensures Step(rd, line) == Ok(rd.(current := rd.current.(name := "")))
  {
    var e: string := [];
    assert !HasPrefix(line, "1 ") && !HasPrefix(line, "2 ") by {
      if |line| >= 2 { assert IsSpace(line[0]); }
    }
    assert e + e + line == line;
    assert AllSpace(line + e) by { assert line + e == line; }
    TrimSpaceOfPadded(line, e, e);
    assert line + e + e == line;
  }

  /** Lines after the last "2 " line build a record that is never appended. */
  lemma TrailingLinesDropped(lines: seq<string>, block: seq<string>)
    requires TlesOf(lines).Ok? && OpenLines(block)
    ensures TlesOf(lines + block) == TlesOf(lines)
  {
    FoldAppend(Start, lines, block);
    FoldOpenLines(Fold(Start, lines).value, block);
  }

  // ---------------------------------------------------------------------------
  // Writing a record and reading it back
  // ---------------------------------------------------------------------------

  /** When the second line's catalog column is a full five-character token, the
      catalog number the loop stores is that column. */
  lemma NoradIdIsCatalogColumn(line2: string)
    requires HasPrefix(line2, "2 ") && |line2| >= 8
    requires NoSpace(line2[2..7]) && IsSpace(line2[7])
    ensures |Fields(line2)| >= 2 && Fields(line2)[1] == line2[2..7]
  {
    var tail := line2[1..];
    assert line2[0] == '2' && line2[1] == ' ' by {
      assert line2[..2] == "2 ";
      assert line2[..2][0] == line2[0] && line2[..2][1] == line2[1];
    }
    assert line2 == "2" + tail;
    assert NoSpace("2");
    FieldsAfterToken("2", tail);
    FieldsSkipSpace(tail);
    var rest := line2[7..];
    var column := line2[2..7];
    assert tail[1..] == line2[2..] by {
      assert |tail[1..]| == |line2[2..]|;
      forall k | 0 <= k < |line2[2..]|
        ensures tail[1..][k] == line2[2..][k]
      {
      }
    }
    assert line2[2..] == column + rest;
    FieldsAfterToken(column, rest);
  }

  /** A file of a name line, a readable line 1 and a line 2 holds one record
      made of the three. */
  lemma ThreeLineFile(name: string, line1: string, line2: string)
    requires !HasPrefix(name, "1 ") && !HasPrefix(name, "2 ")
    requires HasPrefix(line1, "1 ") && Line1Of(line1).Ok?
    requires HasPrefix(line2, "2 ") && |line2| >= 69 && |Fields(line2)| >= 2
    ensures TlesOf([name, line1, line2]) ==
      Ok([TLE(TrimSpace(name), Fields(line2)[1], Line1Of(line1).value, Line2Of(line2).value)])
  {
    var l1 := Line1Of(line1).value;
    var rd1 := Start.(current := EmptyTle.(name := TrimSpace(name)));
    var rd2 := rd1.(current := rd1.current.(line1 := l1));
    assert Fold(Start, [name]) == Ok(rd1) by {
      assert [name][..0] == [];
    }
    assert Fold(Start, [name, line1]) == Ok(rd2) by {
      assert [name, line1][..1] == [name];
    }
    assert Fold(Start, [name, line1, line2]) == Step(rd2, line2) by {
      assert [name, line1, line2][..2] == [name, line1];
    }
    assert !HasPrefix(line2, "1 ") by {
      assert line2[..2] == "2 ";
      assert line2[..2][0] == line2[0];
    }
    var record := TLE(TrimSpace(name), Fields(line2)[1], l1, Line2Of(line2).value);
    assert Step(rd2, line2) == Ok(Reader([] + [record], EmptyTle));
    assert [] + [record] == [record];
  }

  /** The text `TLE.String` writes for a parsed record, split into lines and read
      back, gives that record again with its catalog number filled in, when the
      name is trimmed and reads as a name line and no part holds a newline. */
  lemma StringThenRead(line1: string, line2: string, name: string)
    requires ParseTle(line1, line2, name).Ok?
    requires HasPrefix(line1, "1 ") && HasPrefix(line2, "2 ") && |Fields(line2)| >= 2
    requires IsTrimmed(name) && !HasPrefix(name, "1 ") && !HasPrefix(name, "2 ")
    requires '\n' !in name && '\n' !in line1 && '\n' !in line2
    ensures var t := ParseTle(line1, line2, name).value;
      TlesOf(Split(TleString(t), '\n')) == Ok([t.(noradId := Fields(line2)[1])])
  {
    var t := ParseTle(line1, line2, name).value;
    assert Split(TleString(t), '\n') == [name, line1, line2];
    TrimSpaceOfTrimmed(name);
    ThreeLineFile(name, line1, line2);
  }

  /** The catalog field of a line 2 written column by column. */
  lemma NoradIdOfLayout2(sat: string, incl: string, raan: string, ecc: string, argp: string, ma: string,
                         mm: string, rev: string, cs: string)
    requires |sat| == 5 && NoSpace(sat) && |incl| == 8 && |raan| == 8 && |ecc| == 7 && |argp| == 8 && |ma| == 8
    requires |mm| == 11 && |rev| == 5 && |cs| == 1
    ensures var line := Layout2(sat, incl, raan, ecc, argp, ma, mm, rev, cs);
      HasPrefix(line, "2 ") && |line| == 69 && |Fields(line)| >= 2 && Fields(line)[1] == sat
  {
    var line := Layout2(sat, incl, raan, ecc, argp, ma, mm, rev, cs);
    assert line[..2] == "2 ";
    assert line[2..7] == sat;
    assert line[7] == ' ';
    NoradIdIsCatalogColumn(line);
  }

  /** The example record of the package, as a three-line file, reads as one
      record named "ISS (ZARYA)" with catalog number "25544". */
  lemma IssFile()
    ensures Line1Of(IssLine1).Ok? && Line2Of(IssLine2).Ok?
    ensures TlesOf([IssName, IssLine1, IssLine2]) ==
      Ok([TLE("ISS (ZARYA)", "25544", Line1Of(IssLine1).value, Line2Of(IssLine2).value)])
  {
    assert Line1Of(IssLine1).Ok? by { IssLine1Fields(); }
    IssLine2Catalog();
    assert HasPrefix(IssLine1, "1 ") by {
      Line1OfLayoutPrefix("25544", "U", "98", "067", "A  ", "08", "264.51782528", "-.00002182", " 00000-0", "-11606-4", "0", " 292", "7");
    }
    assert TrimSpace(IssName) == IssName by {
      assert IsTrimmed(IssName);
      TrimSpaceOfTrimmed(IssName);
    }
    assert !HasPrefix(IssName, "1 ") && !HasPrefix(IssName, "2 ") by {
      assert IssName[0] == 'I';
      DifferentFirstCharacter(IssName, "1 ");
      DifferentFirstCharacter(IssName, "2 ");
    }
    ThreeLineFile(IssName, IssLine1, IssLine2);
  }

  /** The catalog number the loop takes from the example's line 2. */
  lemma IssLine2Catalog()
    ensures HasPrefix(IssLine2, "2 ") && |IssLine2| >= 69 && |Fields(IssLine2)| >= 2 && Fields(IssLine2)[1] == "25544"
  {
    var sat := "25544";
    assert NoSpace(sat) by {
      assert AllDigits(sat);
    }
    NoradIdOfLayout2(sat, " 51.6416", "247.4627", "0006703", "130.5360", "325.0288", "15.72125391", "56353", "7");
  }

  lemma DifferentFirstCharacter(s: string, p: string)
    requires s != [] && p != [] && s[0] != p[0]
    ensures !HasPrefix(s, p)
  {
    if |p| <= |s| {
      assert s[..|p|][0] == s[0];
    }
  }

  /** A line 1 written column by column starts with "1 ". */
  lemma Line1OfLayoutPrefix(sat: string, cls: string, ly: string, ln: string, lp: string, ey: string, ed: string,
                            fd: string, sd: string, bs: string, et: string, esn: string, cs: string)
    ensures HasPrefix(Layout1(sat, cls, ly, ln, lp, ey, ed, fd, sd, bs, et, esn, cs), "1 ")
  {
    var line := Layout1(sat, cls, ly, ln, lp, ey, ed, fd, sd, bs, et, esn, cs);
    assert line[..2] == "1 ";
  }
}
