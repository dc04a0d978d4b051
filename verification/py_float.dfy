/** Python's `float(s)` for a string `s`, as an exact `real`: surrounding whitespace
    is ignored, then an optional sign, a decimal mantissa (`12`, `12.`, `12.5`, `.5`,
    with single underscores allowed between digits) and an optional exponent
    (`e`/`E`, optional sign, digits). */
module PyFloat {
  import opened Options
  import opened PyText

  predicate IsDigit(c: char) {
    '0' <= c <= '9'
  }

  function DigitValue(c: char): nat {
    if IsDigit(c) then (c as int) - ('0' as int) else 0
  }

  function DigitChar(d: nat): (c: char)
    requires d < 10
    ensures IsDigit(c) && DigitValue(c) == d
  {
    (('0' as int) + d) as char
  }

  /** A digit part of Python's float grammar, `digit (["_"] digit)*`, read from the
      back: a final digit, preceded by nothing, by a digit part, or by a digit part
      and one underscore. */
  predicate IsDigitPart(s: string)
    decreases |s|
  {
    && |s| > 0
    && IsDigit(s[|s| - 1])
    && (|s| == 1
        || IsDigitPart(s[..|s| - 1])
        || (|s| >= 3 && s[|s| - 2] == '_' && IsDigitPart(s[..|s| - 2])))
  }

  /** The digits of `s` with its underscores dropped. */
  function DigitsOf(s: string): (r: string)
    ensures |r| <= |s|
    ensures (forall i :: 0 <= i < |s| ==> IsDigit(s[i])) ==> r == s
  {
    if s == [] then [] else (if s[0] == '_' then [] else [s[0]]) + DigitsOf(s[1..])
  }

  /** The value of a string of decimal digits, most significant first. */
  function NatValue(ds: string): nat {
    if ds == [] then 0 else 10 * NatValue(ds[..|ds| - 1]) + DigitValue(ds[|ds| - 1])
  }

  function Pow10(n: nat): (p: nat)
    ensures p >= 1
  {
    if n == 0 then 1 else 10 * Pow10(n - 1)
  }

  /** Ten to the (possibly negative) power `e`. */
  function Scale(e: int): real {
    if e >= 0 then Pow10(e) as real else 1.0 / (Pow10(-e) as real)
  }

  /** Index of the first exponent mark (`e` or `E`), or `|s|` when there is none. */
  function ExponentMark(s: string): (i: nat)
    ensures i <= |s|
    ensures i < |s| ==> s[i] == 'e' || s[i] == 'E'
    ensures forall j :: 0 <= j < i ==> s[j] != 'e' && s[j] != 'E'
  {
    if s == [] then 0
    else if s[0] == 'e' || s[0] == 'E' then 0
    else 1 + ExponentMark(s[1..])
  }

  /** Index of the first `.`, or `|s|` when there is none. */
  function PointIndex(s: string): (i: nat)
    ensures i <= |s|
    ensures i < |s| ==> s[i] == '.'
    ensures forall j :: 0 <= j < i ==> s[j] != '.'
  {
    if s == [] then 0
    else if s[0] == '.' then 0
    else 1 + PointIndex(s[1..])
  }

  /** The value of an unsigned mantissa, or None when it is not well formed. */
  function ParseMantissa(m: string): Option<real> {
    var i := PointIndex(m);
    if i == |m| then
      if IsDigitPart(m) then Some(NatValue(DigitsOf(m)) as real) else None
    else
      var whole, frac := m[..i], m[i + 1..];
      if whole == [] && frac == [] then None
      else if whole != [] && !IsDigitPart(whole) then None
      else if frac != [] && !IsDigitPart(frac) then None
      else
        var fd := DigitsOf(frac);
        Some(NatValue(DigitsOf(whole)) as real + (NatValue(fd) as real) / (Pow10(|fd|) as real))
  }

  /** The value of an exponent `[sign] digitpart`, or None when it is not well formed. */
  function ParseExponent(e: string): Option<int> {
    if |e| > 0 && (e[0] == '+' || e[0] == '-') then
      if IsDigitPart(e[1..])
      then Some(if e[0] == '-' then -(NatValue(DigitsOf(e[1..])) as int) else NatValue(DigitsOf(e[1..])))
      else None
    else if IsDigitPart(e) then Some(NatValue(DigitsOf(e)))
    else None
  }

  /** The value of an unsigned number `mantissa [exponent]`. */
  function ParseUnsigned(t: string): Option<real> {
    var k := ExponentMark(t);
    if k == |t| then ParseMantissa(t)
    else
      match (ParseMantissa(t[..k]), ParseExponent(t[k + 1..]))
      case (Some(v), Some(e)) => Some(v * Scale(e))
      case _ => None
  }

  /** `float(s)`: None stands for the ValueError Python raises on a malformed string. */
  function ParseFloat(s: string): Option<real> {
    ParseSigned(Strip(s))
  }

  /** `[sign] unsigned` with the whitespace already stripped. */
  function ParseSigned(t: string): Option<real> {
    if |t| > 0 && (t[0] == '+' || t[0] == '-') then
      match ParseUnsigned(t[1..])
      case Some(v) => Some(if t[0] == '-' then -v else v)
      case None => None
    else ParseUnsigned(t)
  }

  /** The decimal numeral of `n` (Python's `str` of a non-negative int). */
  function NatText(n: nat): (r: string)
    ensures |r| > 0
    ensures forall i :: 0 <= i < |r| ==> IsDigit(r[i])
  {
    if n < 10 then [DigitChar(n)] else NatText(n / 10) + [DigitChar(n % 10)]
  }

  /** Python's `str` of an int. */
  function IntText(n: int): (r: string)
    ensures |r| > 0
  {
    if n < 0 then "-" + NatText(-n) else NatText(n)
  }

  lemma {:induction false} NatTextValue(n: nat)
    ensures NatValue(NatText(n)) == n
  {
    var s := NatText(n);
    if n >= 10 {
      assert s[..|s| - 1] == NatText(n / 10);
      NatTextValue(n / 10);
    }
  }

  /** A numeral is a digit part. */
  lemma {:induction false} NatTextDigitPart(n: nat)
    ensures IsDigitPart(NatText(n))
  {
    if n >= 10 {
      var s := NatText(n);
      assert s[..|s| - 1] == NatText(n / 10);
      NatTextDigitPart(n / 10);
    }
  }

  /** A numeral parses back to its own value. */
  lemma {:induction false} NatTextParses(n: nat)
    ensures ParseUnsigned(NatText(n)) == Some(n as real)
  {
    NatTextDigitPart(n);
    NatTextValue(n);
  }

  /** Round trip: `float(str(n)) == n` for every int `n`. */
  lemma {:induction false} IntTextParses(n: int)
    ensures ParseFloat(IntText(n)) == Some(n as real)
  {
    if n < 0 {
      NegativeTextParses(n);
    } else {
      NatTextFloatParses(n);
    }
  }

  lemma {:induction false} NatTextFloatParses(n: nat)
    ensures ParseFloat(NatText(n)) == Some(n as real)
  {
    var t := NatText(n);
    StripNumeral(t);
    NatTextParses(n);
    UnsignedParse(t);
  }

  lemma NegativeTextParses(n: int)
    requires n < 0
    ensures ParseFloat(IntText(n)) == Some(n as real)
  {
    MinusText(n);
    StripNumeral(IntText(n));
    NegativeSigned(n);
  }

  /** Below the whitespace strip: a minus sign before a numeral reads as its negation. */
  lemma NegativeSigned(n: int)
    requires n < 0
    ensures ParseSigned(IntText(n)) == Some(n as real)
  {
    MinusText(n);
    NegativeUnsigned(n);
    NegativeParse(IntText(n), (-n) as real);
  }

  lemma NegativeUnsigned(n: int)
    requires n < 0
    ensures |IntText(n)| > 1 && ParseUnsigned(IntText(n)[1..]) == Some((-n) as real)
  {
    NatTextParses(-n);
  }

  /** `str(n)` of a negative `n` is a minus sign followed by the numeral of `-n`. */
  lemma MinusText(n: int)
    requires n < 0
    ensures var t := IntText(n);
      |t| > 1 && t[0] == '-' && t[1..] == NatText(-n) && IsDigit(t[|t| - 1])
  {
    var d := NatText(-n);
    var t := IntText(n);
    assert t == "-" + d;
    assert t[|t| - 1] == d[|d| - 1];
  }

  lemma NegativeParse(t: string, v: real)
    requires |t| > 0 && t[0] == '-' && ParseUnsigned(t[1..]) == Some(v)
    ensures ParseSigned(t) == Some(-v)
  {
  }

  lemma UnsignedParse(t: string)
    requires |t| > 0 && IsDigit(t[0])
    ensures ParseSigned(t) == ParseUnsigned(t)
  {
  }

  /** A string that starts with a sign or digit and ends with a digit is its own strip,
      so `float` sees it unchanged. */
  lemma StripNumeral(t: string)
    requires |t| > 0 && (t[0] == '-' || IsDigit(t[0])) && IsDigit(t[|t| - 1])
    ensures ParseFloat(t) == ParseSigned(t)
  {
    NumeralCharNotSpace(t[0]);
    NumeralCharNotSpace(t[|t| - 1]);
    assert Strip(t) == t;
  }

  lemma NumeralCharNotSpace(c: char)
    requires c == '-' || IsDigit(c)
    ensures !IsSpace(c)
  {
  }

  /** The numerals `str(n)` contain no `/`. */
  lemma IntTextHasNoSlash(n: int)
    ensures '/' !in IntText(n)
  {
  }
}
