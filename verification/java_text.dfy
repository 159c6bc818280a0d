/**
 * The few pieces of Java's number and string library that the follow-list cleaner relies on:
 * fixed-width integers, the `(int)` narrowing cast, truncating division, `Long.toString`,
 * `Integer.parseInt`, `String.trim` and `String.join`.
 */
module JavaText {
  import opened Wrappers

  const MinInt32: int := -0x8000_0000
  const MaxInt32: int := 0x7fff_ffff
  const MinInt64: int := -0x8000_0000_0000_0000
  const MaxInt64: int := 0x7fff_ffff_ffff_ffff

  /** A Java `int`. */
  type Int32 = x: int | MinInt32 <= x <= MaxInt32
  /** A Java `long`. */
  type Int64 = x: int | MinInt64 <= x <= MaxInt64

  /** Java's `(int)` cast of an integer: keep the low 32 bits, read them as two's complement. */
  function NarrowToInt32(x: int): (r: Int32)
    ensures (r - x) % 0x1_0000_0000 == 0
    ensures MinInt32 <= x <= MaxInt32 ==> r == x
  {
    var low := x % 0x1_0000_0000;
    if low <= MaxInt32 then low else low - 0x1_0000_0000
  }

  /** Java's `/` on integers: the quotient truncated toward zero. */
  function TruncDiv(a: int, b: int): (q: int)
    requires b > 0
    ensures a >= 0 ==> q * b <= a < (q + 1) * b
    ensures a < 0 ==> (q - 1) * b < a <= q * b
  {
    if a >= 0 then a / b else -((-a) / b)
  }

  predicate IsDigit(c: char) { '0' <= c <= '9' }

  function DigitChar(d: nat): (c: char)
    requires d < 10
    ensures IsDigit(c)
  {
    ['0', '1', '2', '3', '4', '5', '6', '7', '8', '9'][d]
  }

  function DigitValue(c: char): (d: nat)
    requires IsDigit(c)
    ensures d < 10 && DigitChar(d) == c
  {
    (c as int - '0' as int) as nat
  }

  /** The shortest decimal spelling of `n`, without sign. */
  function NatDigits(n: nat): (s: string)
    ensures |s| >= 1
    ensures forall i :: 0 <= i < |s| ==> IsDigit(s[i])
  {
    if n < 10 then [DigitChar(n)] else NatDigits(n / 10) + [DigitChar(n % 10)]
  }

  /** `Long.toString` and string concatenation of a `long`: a minus sign for negatives, then the digits. */
  function DecimalString(n: int): string {
    if n < 0 then "-" + NatDigits(-n) else NatDigits(n)
  }

  /** The decimal spelling is digits, after a minus sign for a negative number. */
  lemma DecimalStringShape(n: int)
    ensures var s := DecimalString(n);
      && |s| >= 1
      && (n >= 0 ==> forall i :: 0 <= i < |s| ==> IsDigit(s[i]))
      && (n < 0 ==> s[0] == '-' && forall i :: 1 <= i < |s| ==> IsDigit(s[i]))
  {
  }

  predicate AllDigits(s: string) { forall i :: 0 <= i < |s| ==> IsDigit(s[i]) }

  /** The value of a string of decimal digits (leading zeros allowed). */
  function DigitsValue(s: string): nat
    requires AllDigits(s)
  {
    if s == [] then 0 else 10 * DigitsValue(s[..|s| - 1]) + DigitValue(s[|s| - 1])
  }

  lemma {:induction false} DigitsValueOfNatDigits(n: nat)
    ensures DigitsValue(NatDigits(n)) == n
  {
    if n >= 10 {
      var s := NatDigits(n);
      assert s[..|s| - 1] == NatDigits(n / 10);
      DigitsValueOfNatDigits(n / 10);
    }
  }

  /** An optional leading `-` or `+` followed by at least one decimal digit, read as an integer. */
  function ParseDecimal(s: string): (r: Option<int>)
    ensures s == [] ==> r == None
  {
    if s == [] then None
    else
      var signed := s[0] == '-' || s[0] == '+';
      var digits := if signed then s[1..] else s;
      if digits == [] || !AllDigits(digits) then None
      else if s[0] == '-' then Some(0 - DigitsValue(digits) as int)
      else Some(DigitsValue(digits))
  }

  /** Every integer printed in decimal reads back as itself, so printing loses nothing. */
  lemma ParseDecimalOfDecimalString(n: int)
    ensures ParseDecimal(DecimalString(n)) == Some(n)
  {
    if n < 0 {
      ParseNegativeDecimalString(n);
    } else {
      ParseNatDecimalString(n);
    }
  }

  lemma ParseNatDecimalString(n: nat)
    ensures ParseDecimal(DecimalString(n)) == Some(n)
  {
    DigitsValueOfNatDigits(n);
    var s := NatDigits(n);
    assert DecimalString(n) == s;
    assert IsDigit(s[0]) && AllDigits(s);
  }

  lemma ParseNegativeDecimalString(n: int)
    requires n < 0
    ensures ParseDecimal(DecimalString(n)) == Some(n)
  {
    var m: nat := -n;
    assert DecimalString(n) == "-" + NatDigits(m);
    ParseNegativeDigits(m);
  }

  lemma ParseNegativeDigits(m: nat)
    requires m > 0
    ensures ParseDecimal("-" + NatDigits(m)) == Some(-(m as int))
  {
    DigitsValueOfNatDigits(m);
    var d := NatDigits(m);
    var s := "-" + d;
    assert s[0] == '-' && s[1..] == d;
    assert AllDigits(d);
  }

  /** Two integers with the same decimal spelling are equal. */
  lemma DecimalStringInjective(m: int, n: int)
    requires DecimalString(m) == DecimalString(n)
    ensures m == n
  {
    ParseDecimalOfDecimalString(m);
    ParseDecimalOfDecimalString(n);
  }

  /**
   * `Integer.parseInt`: a decimal numeral whose value fits in an `int`; `None` stands for the
   * `NumberFormatException`. Only ASCII digits are recognised here.
   */
  function ParseInt(s: string): (r: Option<Int32>)
    ensures r.Some? ==> ParseDecimal(s) == Some(r.value as int)
    ensures ParseDecimal(s).Some? && MinInt32 <= ParseDecimal(s).value <= MaxInt32 ==> r.Some?
  {
    match ParseDecimal(s)
    case Some(v) => if MinInt32 <= v <= MaxInt32 then Some(v) else None
    case None => None
  }

  /** Every `int` printed in decimal parses back to itself. */
  lemma ParseIntOfDecimalString(n: Int32)
    ensures ParseInt(DecimalString(n)) == Some(n)
  {
    ParseDecimalOfDecimalString(n);
  }

  /** Characters that `String.trim` removes from both ends: every code point up to the space. */
  predicate IsTrimmed(c: char) { c <= ' ' }

  /**
   * `String.trim`: the middle of `s` that is left after removing every character up to the space
   * from both ends, and only those.
   */
  function Trim(s: string): (r: string)
    ensures |r| <= |TrimStart(s)| <= |s|
    ensures r == [] || (!IsTrimmed(r[0]) && !IsTrimmed(r[|r| - 1]))
    ensures var i := |s| - |TrimStart(s)|;
      && r == s[i..i + |r|]
      && (forall k :: 0 <= k < i ==> IsTrimmed(s[k]))
      && (forall k :: i + |r| <= k < |s| ==> IsTrimmed(s[k]))
  {
    TrimEnd(TrimStart(s))
  }

  /** A string with nothing to trim is its own trimmed form. */
  lemma TrimClean(s: string)
    requires forall k :: 0 <= k < |s| ==> !IsTrimmed(s[k])
    ensures Trim(s) == s
  {
    assert TrimStart(s) == s;
    assert TrimEnd(s) == s;
  }

  /** `s` without its leading characters up to the space. */
  function TrimStart(s: string): (r: string)
    ensures |r| <= |s| && (r == [] || !IsTrimmed(r[0]))
    ensures r == s[|s| - |r|..]
    ensures forall k :: 0 <= k < |s| - |r| ==> IsTrimmed(s[k])
  {
    if s != [] && IsTrimmed(s[0]) then TrimStart(s[1..]) else s
  }

  /** `s` without its trailing characters up to the space. */
  function TrimEnd(s: string): (r: string)
    ensures |r| <= |s| && (r == [] || !IsTrimmed(r[|r| - 1]))
    ensures r == s[..|r|]
    ensures forall k :: |r| <= k < |s| ==> IsTrimmed(s[k])
  {
    if s != [] && IsTrimmed(s[|s| - 1]) then TrimEnd(s[..|s| - 1]) else s
  }

  /** `String.join(sep, parts)`: the parts with `sep` between neighbours. */
  function Join(sep: string, parts: seq<string>): string
  {
    if parts == [] then ""
    else if |parts| == 1 then parts[0]
    else parts[0] + sep + Join(sep, parts[1..])
  }

  /** Joining one more part adds a separator and the part, unless it is the first. */
  lemma {:induction false} JoinSnoc(sep: string, parts: seq<string>, x: string)
    ensures Join(sep, parts + [x]) == if parts == [] then x else Join(sep, parts) + sep + x
  {
    if |parts| == 1 {
      assert (parts + [x])[1..] == [x];
    } else if |parts| > 1 {
      JoinSnoc(sep, parts[1..], x);
      assert (parts + [x])[1..] == parts[1..] + [x];
    }
  }

  /** A character in neither the separator nor any part is not in the joined string. */
  lemma {:induction false} JoinAvoids(sep: string, parts: seq<string>, c: char)
    requires c !in sep && forall i :: 0 <= i < |parts| ==> c !in parts[i]
    ensures c !in Join(sep, parts)
  {
    if |parts| > 1 {
      JoinAvoids(sep, parts[1..], c);
    }
  }
}
