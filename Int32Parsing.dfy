/**
 * `System.Int32.Parse` and `System.Int32.TryParse` with the default
 * `NumberStyles.Integer` under the invariant culture: optional white space
 * around an optional `+` or `-` sign followed by one or more decimal digits,
 * whose value must fit in 32 bits.
 */
module Int32Parsing {
  import opened Wrappers

  const MinInt32: int := -0x8000_0000
  const MaxInt32: int := 0x7fff_ffff

  /** The values of the C# type `int`. */
  type Int32 = x: int | MinInt32 <= x <= MaxInt32

  /** Why `int.Parse` throws: `FormatException` or `OverflowException`. */
  datatype ParseError = Format | Overflow

  /** The white space `AllowLeadingWhite` and `AllowTrailingWhite` accept: U+0009 to U+000D and U+0020. */
  predicate IsWhite(c: char) {
    c == ' ' || '\t' <= c <= '\r'
  }

  predicate IsDigit(c: char) {
    '0' <= c <= '9'
  }

  predicate AllDigits(s: string) {
    forall i :: 0 <= i < |s| ==> IsDigit(s[i])
  }

  function DigitValue(c: char): nat
    requires IsDigit(c)
  {
    (c as int) - ('0' as int)
  }

  function DigitChar(d: nat): char
    requires d < 10
  {
    (('0' as int) + d) as char
  }

  /** The value of a string of decimal digits, most significant first. */
  function DigitsValue(s: string): nat
    requires AllDigits(s)
  {
    if |s| == 0 then 0 else DigitsValue(s[..|s| - 1]) * 10 + DigitValue(s[|s| - 1])
  }

  function TrimStart(s: string): string {
    if |s| > 0 && IsWhite(s[0]) then TrimStart(s[1..]) else s
  }

  function TrimEnd(s: string): string {
    if |s| > 0 && IsWhite(s[|s| - 1]) then TrimEnd(s[..|s| - 1]) else s
  }

  /**
   * `int.Parse(s)`: the integer `s` denotes, or the exception it throws.
   * A malformed string is a format error even when its digits would also
   * overflow, as in .NET.
   */
  function Parse(s: string): Result<Int32, ParseError> {
    var t := TrimEnd(TrimStart(s));
    var signed := |t| > 0 && (t[0] == '-' || t[0] == '+');
    var digits := if signed then t[1..] else t;
    if |digits| == 0 || !AllDigits(digits) then Err(Format)
    else
      var v: int := if signed && t[0] == '-' then -(DigitsValue(digits) as int) else DigitsValue(digits);
      if MinInt32 <= v <= MaxInt32 then Ok(v) else Err(Overflow)
  }

  /** `int.TryParse(s, out v)`: the same rules as `int.Parse`, reporting a rejected string as `None` instead of throwing. */
  function TryParse(s: string): Option<Int32> {
    match Parse(s)
    case Ok(v) => Some(v)
    case Err(_) => None
  }

  /** The decimal digits of a natural number, without leading zeros. */
  function NatToDigits(n: nat): string
    decreases n
  {
    if n < 10 then [DigitChar(n)] else NatToDigits(n / 10) + [DigitChar(n % 10)]
  }

  /** `n.ToString()` for an `int` under the invariant culture. */
  function Int32ToString(n: Int32): string {
    if n < 0 then "-" + NatToDigits(-(n as int)) else NatToDigits(n)
  }

  lemma {:induction false} NatToDigitsValue(n: nat)
    ensures |NatToDigits(n)| > 0 && AllDigits(NatToDigits(n))
    ensures DigitsValue(NatToDigits(n)) == n
    decreases n
  {
    if n >= 10 {
      NatToDigitsValue(n / 10);
      var s := NatToDigits(n);
      assert s[..|s| - 1] == NatToDigits(n / 10);
      assert DigitValue(s[|s| - 1]) == n % 10;
    }
  }

  /** Parsing the invariant-culture decimal form of any `int` gives that `int` back. */
  lemma ParseInt32ToString(n: Int32)
    ensures Parse(Int32ToString(n)) == Ok(n)
    ensures TryParse(Int32ToString(n)) == Some(n)
  {
    var s := Int32ToString(n);
    var m: nat := if n < 0 then -(n as int) else n;
    var ds := NatToDigits(m);
    NatToDigitsValue(m);
    assert IsDigit(ds[0]) && IsDigit(ds[|ds| - 1]);
    assert s[0] == '-' || s[0] == ds[0];
    assert s[|s| - 1] == ds[|ds| - 1];
    assert TrimStart(s) == s;
    assert TrimEnd(s) == s;
    if n < 0 {
      assert s[1..] == ds;
    }
  }

  lemma {:induction false} TrimKeepsChars(s: string)
    ensures forall c :: c in TrimStart(s) ==> c in s
    ensures forall c :: c in TrimEnd(s) ==> c in s
    decreases |s|
  {
    if |s| > 0 {
      TrimKeepsChars(s[1..]);
      TrimKeepsChars(s[..|s| - 1]);
    }
  }

  /** A string without a single decimal digit (empty, white space, a word) makes `int.Parse` throw `FormatException`. */
  lemma NoDigitIsFormatError(s: string)
    requires forall i :: 0 <= i < |s| ==> !IsDigit(s[i])
    ensures Parse(s) == Err(Format)
    ensures TryParse(s) == None
  {
    TrimKeepsChars(s);
    TrimKeepsChars(TrimStart(s));
    var t := TrimEnd(TrimStart(s));
    var digits := if |t| > 0 && (t[0] == '-' || t[0] == '+') then t[1..] else t;
    assert |digits| == 0 || !IsDigit(digits[0]) by {
      if |digits| > 0 { assert digits[0] in t; }
    }
  }
}
