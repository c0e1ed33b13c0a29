/**
 * gfx::Range's text form: "{" start "," end "}" followed by the newline
 * that std::endl writes, with both endpoints in plain base 10.
 *
 * The partner of the formatter is ParseRange, which reads that text back;
 * the round trip shows that the text determines the range.
 */
module GfxRange {
  import opened Wrappers

  /** A range of positions; start may exceed end (a reversed range). */
  datatype Range = Range(start: nat, end: nat)

  predicate IsDigit(c: char) {
    '0' <= c <= '9'
  }

  predicate AllDigits(s: string) {
    forall i :: 0 <= i < |s| ==> IsDigit(s[i])
  }

  function DigitValue(c: char): (d: nat)
    requires IsDigit(c)
    ensures d < 10
  {
    (c as int) - ('0' as int)
  }

  function DigitChar(d: nat): (c: char)
    requires d < 10
    ensures IsDigit(c) && DigitValue(c) == d
  {
    (('0' as int) + d) as char
  }

  /** The number of decimal digits of n (one for zero). */
  function Digits(n: nat): (k: nat)
    ensures k >= 1
  {
    if n < 10 then 1 else 1 + Digits(n / 10)
  }

  /** The plain base-10 rendering of n: no sign, no leading zero. */
  function NatToDecimal(n: nat): (r: string)
    ensures |r| == Digits(n)
    ensures AllDigits(r)
    ensures r[0] == '0' <==> n == 0
  {
    if n < 10 then [DigitChar(n)]
    else NatToDecimal(n / 10) + [DigitChar(n % 10)]
  }

  /** The number a string of digits denotes. */
  function DecimalValue(s: string): nat
    requires AllDigits(s)
    decreases |s|
  {
    if s == [] then 0 else 10 * DecimalValue(s[..|s| - 1]) + DigitValue(s[|s| - 1])
  }

  /** A non-empty string of digits, read as a number. */
  function ParseDecimal(s: string): Option<nat> {
    if s != [] && AllDigits(s) then Some(DecimalValue(s)) else None
  }

  /** Range::ToString. */
  function ToString(r: Range): (s: string)
    ensures |s| == 4 + Digits(r.start) + Digits(r.end)
    ensures s[0] == '{' && s[|s| - 2..] == "}\n"
    ensures multiset(s)[','] == 1
  {
    var a, b := NatToDecimal(r.start), NatToDecimal(r.end);
    assert ',' !in multiset(a) && ',' !in multiset(b) by {
      NoComma(a);
      NoComma(b);
    }
    "{" + a + "," + b + "}\n"
  }

  /** The stream insertion operator: the stream's text after `os << r`. */
  function Insert(os: string, r: Range): (os': string)
    ensures |os'| == |os| + |ToString(r)|
    ensures os'[..|os|] == os
    ensures ParseRange(os'[|os|..]) == Some(r)
  {
    RangeRoundTrip(r);
    var t := os + ToString(r);
    assert t[|os|..] == ToString(r);
    t
  }

  /** The index of the first occurrence of c in s. */
  function Find(s: string, c: char): (i: Option<nat>)
    ensures i.Some? ==> i.value < |s| && s[i.value] == c && c !in s[..i.value]
    ensures i.None? ==> c !in s
    decreases |s|
  {
    if s == [] then None
    else if s[0] == c then Some(0)
    else match Find(s[1..], c)
      case None => None
      case Some(j) => assert s[..j + 1] == [s[0]] + s[1..][..j]; Some(j + 1)
  }

  /**
   * Reads the text form of a range: "{", a decimal, ",", a decimal, "}\n".
   * None for any other string.
   */
  function ParseRange(s: string): Option<Range> {
    if |s| < 3 || s[0] != '{' || s[|s| - 2..] != "}\n" then None
    else
      var body := s[1..|s| - 2];
      match Find(body, ',')
      case None => None
      case Some(i) =>
        match (ParseDecimal(body[..i]), ParseDecimal(body[i + 1..]))
        case (Some(a), Some(b)) => Some(Range(a, b))
        case _ => None
  }

  // ---------------------------------------------------------------------
  // Properties.

  lemma NoComma(s: string)
    requires AllDigits(s)
    ensures ',' !in multiset(s) && ',' !in s
  {
    assert ',' !in s;
  }

  /** Reading a decimal rendering gives back the number. */
  lemma {:induction false} DecimalRoundTrip(n: nat)
    ensures ParseDecimal(NatToDecimal(n)) == Some(n)
    decreases n
  {
    var s := NatToDecimal(n);
    if n < 10 {
      assert s == [DigitChar(n)] && s[..0] == [];
      assert DecimalValue(s) == 10 * DecimalValue([]) + DigitValue(s[0]);
    } else {
      DecimalRoundTrip(n / 10);
      assert s[..|s| - 1] == NatToDecimal(n / 10);
      assert s[|s| - 1] == DigitChar(n % 10);
    }
  }

  /** The first comma of a + "," + b, when a has none, is right after a. */
  lemma FindAfter(a: string, b: string)
    requires ',' !in a
    ensures Find(a + "," + b, ',') == Some(|a|)
  {
    assert (a + "," + b)[|a|] == ',';
  }

  /** Any two digit strings between the fixed punctuation parse to their values. */
  lemma ParseFormatted(a: string, b: string)
    requires a != [] && b != [] && AllDigits(a) && AllDigits(b)
    ensures ParseRange("{" + a + "," + b + "}\n") == Some(Range(DecimalValue(a), DecimalValue(b)))
  {
    var s := "{" + a + "," + b + "}\n";
    var body := a + "," + b;
    assert s[1..|s| - 2] == body;
    assert s[|s| - 2..] == "}\n";
    NoComma(a);
    FindAfter(a, b);
    assert body[..|a|] == a;
    assert body[|a| + 1..] == b;
  }

  /** Parsing the text form of a range gives back the range. */
  lemma RangeRoundTrip(r: Range)
    ensures ParseRange(ToString(r)) == Some(r)
  {
    ToStringShape(r);
    ParseFormatted(NatToDecimal(r.start), NatToDecimal(r.end));
    DecimalRoundTrip(r.start);
    DecimalRoundTrip(r.end);
  }

  /** The text is exactly the two renderings between the fixed punctuation. */
  lemma ToStringShape(r: Range)
    ensures ToString(r) == "{" + NatToDecimal(r.start) + "," + NatToDecimal(r.end) + "}\n"
    ensures ToString(r)[1..|ToString(r)| - 2] == NatToDecimal(r.start) + "," + NatToDecimal(r.end)
  {
    Between(NatToDecimal(r.start), NatToDecimal(r.end));
  }

  /** What lies between the braces of "{" + a + "," + b + "}\n" is a + "," + b. */
  lemma Between(a: string, b: string)
    ensures var s := "{" + a + "," + b + "}\n"; s[1..|s| - 2] == a + "," + b
  {
  }

  /** Two ranges give the same text exactly when their endpoints are equal. */
  lemma ToStringDeterminedByEndpoints(r1: Range, r2: Range)
    ensures ToString(r1) == ToString(r2) <==> r1.start == r2.start && r1.end == r2.end
  {
    if ToString(r1) == ToString(r2) {
      RangeRoundTrip(r1);
      RangeRoundTrip(r2);
    }
  }

  /** The range [3, 7) is written "{3,7}" and a newline. */
  lemma ToStringExample()
    ensures ToString(Range(3, 7)) == "{3,7}\n"
  {
  }

  /** Two insertions append the two texts in order and nothing else. */
  lemma InsertTwice(os: string, r1: Range, r2: Range)
    ensures Insert(Insert(os, r1), r2) == os + ToString(r1) + ToString(r2)
  {
  }
}
