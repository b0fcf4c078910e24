/** The free `operator<<` for `Vector3`: `[x y z]`, followed by `'` when
    the vector is a column. Integer components are written as a C++ stream
    writes an `int`: decimal digits, no leading zeros, a leading `-` when
    negative. A parser for that format is the rendering's partner: it reads
    back every vector from its rendering. */
module Render {
  import opened Wrappers
  import opened Vectors

  predicate IsDigit(c: char) {
    '0' <= c <= '9'
  }

  /** Characters that can occur in a rendered integer. */
  predicate IsNumeralChar(c: char) {
    IsDigit(c) || c == '-'
  }

  function DigitChar(d: nat): (c: char)
    requires d < 10
    ensures IsDigit(c)
  {
    "0123456789"[d]
  }

  function DigitValue(c: char): nat
    requires IsDigit(c)
  {
    (c - '0') as nat
  }

  /** Decimal digits of `n`, most significant first, with no leading zero. */
  function NatToString(n: nat): (s: string)
    ensures |s| > 0
    ensures forall i :: 0 <= i < |s| ==> IsDigit(s[i])
    ensures |s| > 1 ==> s[0] != '0'
    decreases n
  {
    if n < 10 then [DigitChar(n)]
    else NatToString(n / 10) + [DigitChar(n % 10)]
  }

  /** How `os << n` writes an integer. */
  function IntToString(n: int): (s: string)
    ensures |s| > 0
    ensures forall i :: 0 <= i < |s| ==> IsNumeralChar(s[i])
    ensures s[0] == '-' <==> n < 0
  {
    if n < 0 then "-" + NatToString(-n) else NatToString(n)
  }

  /** `os << v`. */
  function RenderVector(v: Vector3): (s: string)
    ensures |s| >= 7 && s[0] == '['
    ensures s[|s| - 1] == '\'' <==> !v.row
    ensures !v.row ==> s[|s| - 2] == ']'
    ensures v.row ==> s[|s| - 1] == ']'
  {
    "[" + IntToString(v.x) + " " + IntToString(v.y) + " " + IntToString(v.z) + "]"
      + ColumnMark(IsRow(v))
  }

  /** The apostrophe written after a column vector. */
  function ColumnMark(row: bool): string {
    if !row then "'" else ""
  }

  // The parser

  /** The value of a string of decimal digits, most significant first. */
  function ParseDigits(s: string): nat
    requires forall i :: 0 <= i < |s| ==> IsDigit(s[i])
  {
    if |s| == 0 then 0
    else 10 * ParseDigits(s[..|s| - 1]) + DigitValue(s[|s| - 1])
  }

  /** Reads an optionally negated digit string. */
  function ParseInt(s: string): Option<int> {
    if |s| > 0 && s[0] == '-' then
      var t := s[1..];
      if |t| > 0 && forall i :: 0 <= i < |t| ==> IsDigit(t[i]) then Some(0 - ParseDigits(t)) else None
    else if |s| > 0 && forall i :: 0 <= i < |s| ==> IsDigit(s[i]) then Some(ParseDigits(s))
    else None
  }

  /** Length of the longest prefix of `s` made of numeral characters. */
  function NumeralSpan(s: string): (k: nat)
    ensures k <= |s|
    ensures forall i :: 0 <= i < k ==> IsNumeralChar(s[i])
    ensures k < |s| ==> !IsNumeralChar(s[k])
  {
    if |s| == 0 || !IsNumeralChar(s[0]) then 0 else 1 + NumeralSpan(s[1..])
  }

  /** Reads an integer terminated by `delim` and returns it with the rest of
      the input after the delimiter. */
  function ParseField(s: string, delim: char): Option<(int, string)> {
    var k := NumeralSpan(s);
    if k < |s| && s[k] == delim then
      match ParseInt(s[..k])
      case Some(n) => Some((n, s[k + 1..]))
      case None => None
    else None
  }

  /** Reads the rendering of a vector back. */
  function ParseVector(s: string): Option<Vector3> {
    if |s| == 0 || s[0] != '[' then None
    else
      match ParseField(s[1..], ' ')
      case None => None
      case Some((x, r1)) =>
        match ParseField(r1, ' ')
        case None => None
        case Some((y, r2)) =>
          match ParseField(r2, ']')
          case None => None
          case Some((z, r3)) =>
            if r3 == "" then Some(Vector3(x, y, z, true))
            else if r3 == "'" then Some(Vector3(x, y, z, false))
            else None
  }

  // Round trip

  /** The digits of `n` read back as `n`. */
  lemma {:induction false} ParseNatToString(n: nat)
    ensures ParseDigits(NatToString(n)) == n
    decreases n
  {
    var s := NatToString(n);
    if n < 10 {
      assert s[..|s| - 1] == [];
    } else {
      assert s[..|s| - 1] == NatToString(n / 10);
      ParseNatToString(n / 10);
    }
  }

  /** The rendering of `n` read back as `n`. */
  lemma ParseIntToString(n: int)
    ensures ParseInt(IntToString(n)) == Some(n)
  {
    if n < 0 {
      assert IntToString(n)[1..] == NatToString(-n);
      ParseNatToString(-n);
    } else {
      ParseNatToString(n);
    }
  }

  /** The numeral span stops exactly at the end of a numeral followed by a
      non-numeral character. */
  lemma {:induction false} NumeralSpanOfConcat(t: string, u: string)
    requires forall i :: 0 <= i < |t| ==> IsNumeralChar(t[i])
    requires |u| > 0 && !IsNumeralChar(u[0])
    ensures NumeralSpan(t + u) == |t|
    decreases |t|
  {
    if |t| > 0 {
      assert (t + u)[1..] == t[1..] + u;
      NumeralSpanOfConcat(t[1..], u);
    } else {
      assert (t + u)[0] == u[0];
    }
  }

  /** A rendered integer followed by its delimiter is read back with the
      rest of the input. */
  lemma ParseFieldOfRendered(n: int, delim: char, rest: string)
    requires !IsNumeralChar(delim)
    ensures ParseField(IntToString(n) + [delim] + rest, delim) == Some((n, rest))
  {
    var t := IntToString(n);
    var s := t + [delim] + rest;
    assert s == t + ([delim] + rest);
    NumeralSpanOfConcat(t, [delim] + rest);
    assert s[..|t|] == t;
    assert s[|t| + 1..] == rest;
    ParseIntToString(n);
  }

  /** The rendering, grouped the way the parser consumes it. */
  lemma RenderVectorGrouped(v: Vector3)
    ensures RenderVector(v)
      == "[" + (IntToString(v.x) + [' '] + (IntToString(v.y) + [' '] + (IntToString(v.z) + [']'] + ColumnMark(v.row))))
  {
  }

  /** The parser reads the three fields and the orientation mark. */
  lemma ParseGrouped(x: int, y: int, z: int, row: bool)
    ensures ParseVector("[" + (IntToString(x) + [' '] + (IntToString(y) + [' '] + (IntToString(z) + [']'] + ColumnMark(row)))))
      == Some(Vector3(x, y, z, row))
  {
    var sz := IntToString(z) + [']'] + ColumnMark(row);
    var sy := IntToString(y) + [' '] + sz;
    var sx := IntToString(x) + [' '] + sy;
    assert ("[" + sx)[1..] == sx;
    ParseFieldOfRendered(x, ' ', sy);
    ParseFieldOfRendered(y, ' ', sz);
    ParseFieldOfRendered(z, ']', ColumnMark(row));
  }

  /** Parsing a rendering gives back the vector, orientation included. */
  lemma ParseRenderRoundTrip(v: Vector3)
    ensures ParseVector(RenderVector(v)) == Some(v)
  {
    RenderVectorGrouped(v);
    ParseGrouped(v.x, v.y, v.z, v.row);
  }

  /** Different vectors render differently. */
  lemma RenderInjective(a: Vector3, b: Vector3)
    ensures RenderVector(a) == RenderVector(b) <==> a == b
  {
    if RenderVector(a) == RenderVector(b) {
      ParseRenderRoundTrip(a);
      ParseRenderRoundTrip(b);
    }
  }
}
