/**
  The pieces of Go's `strings` and `strconv` packages that the TLE code relies on,
  restricted to ASCII: `strings.TrimSpace`, `strings.Fields`, `strings.HasPrefix`,
  `strings.Index` (used through `strings.SplitN` and `strings.Contains`),
  `strings.Split` on a one-character separator, and `strconv.Atoi`.
*/
module GoStrings {
  import opened Wrappers

  /** ASCII white space as Go's `unicode.IsSpace` sees it: '\t', '\n', '\v', '\f', '\r' and ' '. */
  predicate IsSpace(c: char) {
    c == ' ' || ('\t' <= c <= '\r')
  }

  predicate IsDigit(c: char) {
    '0' <= c <= '9'
  }

  function DigitValue(c: char): (d: nat)
    requires IsDigit(c)
    ensures d < 10
  {
    c as int - '0' as int
  }

  predicate AllDigits(s: string) {
    forall k :: 0 <= k < |s| ==> IsDigit(s[k])
  }

  predicate NoSpace(s: string) {
    forall k :: 0 <= k < |s| ==> !IsSpace(s[k])
  }

  predicate AllSpace(s: string) {
    forall k :: 0 <= k < |s| ==> IsSpace(s[k])
  }

  /** A string that `strings.TrimSpace` leaves alone: no white space at either end. */
  predicate IsTrimmed(s: string) {
    s != [] ==> !IsSpace(s[0]) && !IsSpace(s[|s| - 1])
  }

  predicate HasPrefix(s: string, p: string) {
    |p| <= |s| && s[..|p|] == p
  }

  /** Drops leading white space. */
  function TrimLeft(s: string): string {
    if s != [] && IsSpace(s[0]) then TrimLeft(s[1..]) else s
  }

  /** Drops trailing white space. */
  function TrimRight(s: string): string {
    if s != [] && IsSpace(s[|s| - 1]) then TrimRight(s[..|s| - 1]) else s
  }

  /** `strings.TrimSpace`. Its contract is kept in lemmas (TrimSpaceShape,
      TrimSpaceOfPadded) so that the many trimmed columns of a TLE line do not
      each drag quantified facts into every proof. */
  function TrimSpace(s: string): string {
    TrimRight(TrimLeft(s))
  }

  /** TrimLeft removes a white-space prefix and stops at a non-space character. */
  lemma {:induction false} TrimLeftShape(s: string)
    ensures var r := TrimLeft(s);
      |r| <= |s| && r == s[|s| - |r|..] && AllSpace(s[..|s| - |r|]) && (r != [] ==> !IsSpace(r[0]))
  {
    if s != [] && IsSpace(s[0]) {
      var t := s[1..];
      TrimLeftShape(t);
      var r := TrimLeft(t);
      assert s[|s| - |r|..] == t[|t| - |r|..];
      assert s[..|s| - |r|] == [s[0]] + t[..|t| - |r|];
    }
  }

  /** TrimRight removes a white-space suffix and stops at a non-space character. */
  lemma {:induction false} TrimRightShape(s: string)
    ensures var r := TrimRight(s);
      |r| <= |s| && r == s[..|r|] && AllSpace(s[|r|..]) && (r != [] ==> !IsSpace(r[|r| - 1]))
  {
    if s != [] && IsSpace(s[|s| - 1]) {
      var t := s[..|s| - 1];
      TrimRightShape(t);
      var r := TrimRight(t);
      assert s[..|r|] == t[..|r|];
      assert s[|r|..] == t[|r|..] + [s[|s| - 1]];
    }
  }

  /** The trim of `s` is a slice of `s` with no white space at either end, and
      what was cut off on both sides is white space. */
  lemma TrimSpaceShape(s: string)
    ensures |TrimSpace(s)| <= |TrimLeft(s)| <= |s|
    ensures var r := TrimSpace(s); var i := |s| - |TrimLeft(s)|;
      IsTrimmed(r) && i + |r| <= |s| && r == s[i..i + |r|]
      && AllSpace(s[..i]) && AllSpace(s[i + |r|..])
  {
    var l := TrimLeft(s);
    TrimLeftShape(s);
    TrimRightShape(l);
    var r := TrimRight(l);
    var i := |s| - |l|;
    assert IsTrimmed(r) by {
      assert r != [] ==> r[0] == l[0];
    }
    assert r == s[i..i + |r|] by {
      assert s[i..i + |r|] == l[..|r|];
    }
    assert AllSpace(s[i + |r|..]) by {
      assert s[i + |r|..] == l[|r|..];
    }
  }

  lemma {:induction false} TrimLeftOfPadded(p: string, s: string)
    requires AllSpace(p)
    requires s != [] ==> !IsSpace(s[0])
    ensures TrimLeft(p + s) == s
  {
    if p != [] {
      assert (p + s)[1..] == p[1..] + s;
      TrimLeftOfPadded(p[1..], s);
    } else {
      assert p + s == s;
    }
  }

  lemma {:induction false} TrimRightOfPadded(s: string, q: string)
    requires AllSpace(q)
    requires s != [] ==> !IsSpace(s[|s| - 1])
    ensures TrimRight(s + q) == s
  {
    if q != [] {
      assert (s + q)[..|s + q| - 1] == s + q[..|q| - 1];
      TrimRightOfPadded(s, q[..|q| - 1]);
    } else {
      assert s + q == s;
    }
  }

  /** `strings.TrimSpace` removes exactly the white-space padding around a trimmed string,
      so a trimmed string is its own trim. */
  lemma TrimSpaceOfPadded(p: string, s: string, q: string)
    requires AllSpace(p) && AllSpace(q) && IsTrimmed(s)
    ensures TrimSpace(p + s + q) == s
  {
    if s == [] {
      assert p + s + q == p + q;
      assert AllSpace(p + q);
      TrimLeftOfPadded(p + q, []);
      assert p + q + [] == p + q;
      assert TrimLeft(p + q) == [];
    } else {
      assert p + s + q == p + (s + q);
      TrimLeftOfPadded(p, s + q);
      TrimRightOfPadded(s, q);
    }
  }

  lemma TrimSpaceOfTrimmed(s: string)
    requires IsTrimmed(s)
    ensures TrimSpace(s) == s
  {
    var e: string := [];
    assert e + s + e == s;
    TrimSpaceOfPadded(e, s, e);
  }

  /** Length of the run of non-space characters at the start of `s`. */
  function TokenLength(s: string): (n: nat)
    ensures n <= |s|
    ensures NoSpace(s[..n])
    ensures n < |s| ==> IsSpace(s[n])
  {
    if s == [] || IsSpace(s[0]) then 0
    else
      var m := TokenLength(s[1..]);
      assert s[..1 + m] == [s[0]] + s[1..][..m];
      1 + m
  }

  /** `strings.Fields`: the maximal runs of non-space characters, in order. */
  function Fields(s: string): (r: seq<string>)
    ensures forall k :: 0 <= k < |r| ==> r[k] != [] && NoSpace(r[k])
    decreases |s|
  {
    var t := TrimLeft(s);
    TrimLeftShape(s);
    if t == [] then []
    else
      var n := TokenLength(t);
      [t[..n]] + Fields(t[n..])
  }

  /** A run of non-space characters ended by white space (or by the end) is
      exactly what TokenLength measures. */
  lemma {:induction false} TokenLengthOf(tok: string, rest: string)
    requires NoSpace(tok)
    requires rest == [] || IsSpace(rest[0])
    ensures TokenLength(tok + rest) == |tok|
  {
    if tok == [] {
      assert tok + rest == rest;
    } else {
      assert (tok + rest)[1..] == tok[1..] + rest;
      TokenLengthOf(tok[1..], rest);
    }
  }

  /** A leading token is the first field. */
  lemma FieldsAfterToken(tok: string, rest: string)
    requires tok != [] && NoSpace(tok)
    requires rest == [] || IsSpace(rest[0])
    ensures Fields(tok + rest) == [tok] + Fields(rest)
  {
    var s := tok + rest;
    assert TrimLeft(s) == s;
    TokenLengthOf(tok, rest);
    assert s[..|tok|] == tok;
    assert s[|tok|..] == rest;
  }

  /** Leading white space does not change the fields. */
  lemma FieldsSkipSpace(s: string)
    requires s != [] && IsSpace(s[0])
    ensures Fields(s) == Fields(s[1..])
  {
    assert TrimLeft(s) == TrimLeft(s[1..]);
  }

  /** `strings.Index(s, string(c))`: the first position of `c`, if any. */
  function IndexOf(s: string, c: char): (r: Option<nat>)
    ensures r.None? <==> c !in s
    ensures r.Some? ==> r.value < |s| && s[r.value] == c && c !in s[..r.value]
  {
    if s == [] then None
    else if s[0] == c then Some(0)
    else
      match IndexOf(s[1..], c)
      case None => None
      case Some(i) =>
        assert s[..i + 1] == [s[0]] + s[1..][..i];
        Some(i + 1)
  }

  lemma IndexOfAfterPrefix(a: string, c: char, b: string)
    requires c !in a
    ensures IndexOf(a + [c] + b, c) == Some(|a|)
  {
    var s := a + [c] + b;
    assert s[|a|] == c;
    assert s[..|a|] == a;
  }

  /** `strings.Split(s, string(sep))`: the pieces between the separators. */
  function Split(s: string, sep: char): (r: seq<string>)
    ensures |r| >= 1
    decreases |s|
  {
    match IndexOf(s, sep)
    case None => [s]
    case Some(i) => [s[..i]] + Split(s[i + 1..], sep)
  }

  lemma SplitAfterPiece(a: string, sep: char, t: string)
    requires sep !in a
    ensures Split(a + ([sep] + t), sep) == [a] + Split(t, sep)
  {
    var s := a + ([sep] + t);
    assert s == a + [sep] + t;
    IndexOfAfterPrefix(a, sep, t);
    assert s[..|a|] == a;
    assert s[|a| + 1..] == t;
  }

  /** Splitting three separator-free pieces joined by the separator gives the pieces back. */
  lemma SplitThree(a: string, b: string, c: string, sep: char)
    requires sep !in a && sep !in b && sep !in c
    ensures Split(a + ([sep] + (b + ([sep] + c))), sep) == [a, b, c]
  {
    SplitAfterPiece(b, sep, c);
    assert Split(c, sep) == [c];
    SplitAfterPiece(a, sep, b + ([sep] + c));
  }

  /** Value of a string of decimal digits, most significant first. */
  function DigitsValue(s: string): (v: nat)
    requires AllDigits(s)
    ensures v < Pow10(|s|)
  {
    if s == [] then 0 else DigitsValue(s[..|s| - 1]) * 10 + DigitValue(s[|s| - 1])
  }

  /** The value of two digit strings written one after the other. */
  lemma {:induction false} DigitsValueConcat(a: string, b: string)
    requires AllDigits(a) && AllDigits(b)
    ensures AllDigits(a + b) && DigitsValue(a + b) == DigitsValue(a) * Pow10(|b|) + DigitsValue(b)
    decreases |b|
  {
    if b == [] {
      assert a + b == a;
    } else {
      var b' := b[..|b| - 1];
      var c := b[|b| - 1];
      assert AllDigits(b') by {
        forall k | 0 <= k < |b'| ensures IsDigit(b'[k]) { assert b'[k] == b[k]; }
      }
      DigitsValueConcat(a, b');
      var ab := a + b;
      assert ab == (a + b') + [c];
      assert AllDigits(ab) by {
        forall k | 0 <= k < |ab| ensures IsDigit(ab[k]) {
          if k < |a + b'| { assert ab[k] == (a + b')[k]; }
        }
      }
      assert ab[..|ab| - 1] == a + b';
      var u, v, w := DigitsValue(a), DigitsValue(b'), Pow10(|b'|);
      assert DigitsValue(ab) == (u * w + v) * 10 + DigitValue(c);
      assert DigitsValue(b) == v * 10 + DigitValue(c);
      assert Pow10(|b|) == 10 * w;
      ShiftDigit(u, w, v);
    }
  }

  lemma ShiftDigit(u: int, w: int, v: int)
    ensures (u * w + v) * 10 == u * (10 * w) + v * 10
  {
  }

  function Pow10(n: nat): (p: nat)
    ensures p >= 1
  {
    if n == 0 then 1 else 10 * Pow10(n - 1)
  }

  /** `strconv.Atoi` on a string shorter than 19 bytes: an optional sign followed by at
      least one decimal digit; anything else is a syntax error. (No range error can occur
      at those lengths.) */
  function Atoi(s: string): (r: Option<int>)
    ensures r.Some? <==> (AllDigits(s) && s != []) || (s != [] && (s[0] == '+' || s[0] == '-') && |s| > 1 && AllDigits(s[1..]))
    ensures AllDigits(s) && s != [] ==> r == Some(DigitsValue(s))
    ensures |s| > 1 && (s[0] == '+' || s[0] == '-') && AllDigits(s[1..]) ==>
      r == Some(if s[0] == '-' then -(DigitsValue(s[1..]) as int) else DigitsValue(s[1..]) as int)
  {
    if s != [] && (s[0] == '+' || s[0] == '-') then
      if |s| > 1 && AllDigits(s[1..]) then
        var d: int := DigitsValue(s[1..]);
        var v: int := if s[0] == '-' then 0 - d else d;
        Some(v)
      else None
    else if s != [] && AllDigits(s) then Some(DigitsValue(s))
    else None
  }
}
