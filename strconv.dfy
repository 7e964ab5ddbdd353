/**
 * The two pieces of Go's standard library the handler relies on for reading
 * identities out of text: `strings.Trim(s, " ")` and `strconv.ParseInt(s, 10, 64)`.
 * `FormatInt` (decimal rendering, as `strconv.FormatInt(n, 10)` or `%d` does) is the
 * reference partner the parser is proved against.
 */
module StrConv {
  import opened Wrappers

  const MinInt64: int := -0x8000_0000_0000_0000
  const MaxInt64: int := 0x7FFF_FFFF_FFFF_FFFF

  predicate InInt64(n: int) {
    MinInt64 <= n <= MaxInt64
  }

  predicate IsDigit(c: char) {
    '0' <= c <= '9'
  }

  predicate AllDigits(s: string) {
    forall i :: 0 <= i < |s| ==> IsDigit(s[i])
  }

  function DigitValue(c: char): (d: nat)
    requires IsDigit(c)
    ensures d < 10
  {
    c as int - '0' as int
  }

  function DigitChar(d: nat): (c: char)
    requires d < 10
    ensures IsDigit(c) && DigitValue(c) == d
  {
    ('0' as int + d) as char
  }

  /** The value of a run of decimal digits, most significant first. */
  function DigitsValue(s: string): nat
    requires AllDigits(s)
  {
    if |s| == 0 then 0 else DigitsValue(s[..|s| - 1]) * 10 + DigitValue(s[|s| - 1])
  }

  /**
   * `strconv.ParseInt(s, 10, 64)`: an optional single sign, then at least one ASCII digit
   * and nothing else (no spaces, no underscores: base 10 is explicit), and the value must
   * fit in an int64. Every failure (syntax or range) is `None`; the handler only asks
   * whether there was an error.
   */
  function ParseInt64(s: string): (r: Option<int>)
  {
    if |s| == 0 then None
    else
      var neg := s[0] == '-';
      var digits := if s[0] == '+' || s[0] == '-' then s[1..] else s;
      SignedValue(neg, digits)
  }

  /** What follows the sign: at least one digit and nothing else, and the value must fit. */
  function SignedValue(neg: bool, digits: string): (r: Option<int>)
  {
    if |digits| == 0 || !AllDigits(digits) then None
    else
      var v := if neg then -(DigitsValue(digits) as int) else DigitsValue(digits);
      if InInt64(v) then Some(v) else None
  }

  /** Decimal rendering of a natural number, without leading zeros. */
  function FormatNat(n: nat): (text: string)
  {
    if n < 10 then [DigitChar(n)] else FormatNat(n / 10) + [DigitChar(n % 10)]
  }

  /** Decimal rendering of an integer, as `%d` prints it. */
  function FormatInt(n: int): (text: string)
  {
    if n < 0 then "-" + FormatNat(-n) else FormatNat(n)
  }

  lemma {:induction false} FormatNatDigits(n: nat)
    ensures |FormatNat(n)| > 0 && AllDigits(FormatNat(n))
    ensures FormatNat(n)[0] != '-' && FormatNat(n)[0] != '+'
    ensures DigitsValue(FormatNat(n)) == n
  {
    if n >= 10 {
      FormatNatDigits(n / 10);
      var s := FormatNat(n);
      assert s[..|s| - 1] == FormatNat(n / 10);
    }
  }

  /** Parsing what `%d` prints gives the number back, for every int64. */
  lemma {:induction false} ParseFormatRoundTrip(n: int)
    requires InInt64(n)
    ensures ParseInt64(FormatInt(n)) == Some(n)
  {
    var sign := if n < 0 then "-" else "";
    assert Zeros(0) == "";
    assert FormatInt(n) == Spelling(sign, 0, n);
    ParseSpelling(sign, 0, n);
  }

  /** `k` zero digits. */
  function Zeros(k: nat): (z: string)
    ensures |z| == k && forall i :: 0 <= i < k ==> z[i] == '0'
  {
    seq(k, _ => '0')
  }

  function Magnitude(n: int): nat {
    if n < 0 then -n else n
  }

  /** A sign the parser accepts in front of the digits of `n`: "-" for n <= 0, none or "+" for n >= 0. */
  predicate SignFits(sign: string, n: int) {
    (sign == "-" && n <= 0) || ((sign == "" || sign == "+") && n >= 0)
  }

  /** A spelling of `n`: a sign that fits, some leading zeros, then the decimal digits of |n|. */
  function Spelling(sign: string, zeros: nat, n: int): string {
    sign + Zeros(zeros) + FormatNat(Magnitude(n))
  }

  lemma {:induction false} ZerosValue(k: nat)
    ensures AllDigits(Zeros(k)) && DigitsValue(Zeros(k)) == 0
  {
    if k > 0 {
      ZerosValue(k - 1);
      assert Zeros(k)[..k - 1] == Zeros(k - 1);
    }
  }

  /** Leading zeros do not change the value of a run of digits. */
  lemma {:induction false} LeadingZerosValue(k: nat, d: string)
    requires AllDigits(d)
    ensures AllDigits(Zeros(k) + d) && DigitsValue(Zeros(k) + d) == DigitsValue(d)
  {
    var z := Zeros(k) + d;
    if |d| == 0 {
      assert z == Zeros(k);
      ZerosValue(k);
    } else {
      LeadingZerosValue(k, d[..|d| - 1]);
      assert z[..|z| - 1] == Zeros(k) + d[..|d| - 1];
      assert z[|z| - 1] == d[|d| - 1];
    }
  }

  /** Digits that do not start with a zero have a positive value. */
  lemma {:induction false} NonZeroLeadValue(d: string)
    requires |d| > 0 && AllDigits(d) && d[0] != '0'
    ensures DigitsValue(d) > 0
  {
    if |d| > 1 {
      NonZeroLeadValue(d[..|d| - 1]);
    }
  }

  /** Digits without a leading zero (or a lone digit) are the rendering of their value. */
  lemma {:induction false} CanonicalDigits(d: string)
    requires |d| > 0 && AllDigits(d) && (d[0] != '0' || |d| == 1)
    ensures FormatNat(DigitsValue(d)) == d
  {
    if |d| == 1 {
      assert d == [d[0]];
      assert DigitsValue(d) == DigitValue(d[0]) by { assert d[..0] == []; }
    } else {
      var p := d[..|d| - 1];
      NonZeroLeadValue(p);
      CanonicalDigits(p);
      var v := DigitsValue(d);
      assert v / 10 == DigitsValue(p) && v % 10 == DigitValue(d[|d| - 1]);
      assert d == p + [d[|d| - 1]];
    }
  }

  /** A run of digits is some leading zeros followed by digits without a leading zero. */
  lemma {:induction false} SplitLeadingZeros(d: string) returns (k: nat)
    requires |d| > 0 && AllDigits(d)
    ensures k < |d| && d == Zeros(k) + d[k..] && (d[k] != '0' || k == |d| - 1)
  {
    if d[0] == '0' && |d| > 1 {
      var k' := SplitLeadingZeros(d[1..]);
      k := k' + 1;
      assert Zeros(k) == ['0'] + Zeros(k');
      assert d[1..][k'..] == d[k..];
      assert d == [d[0]] + d[1..];
    } else {
      k := 0;
    }
  }

  /** Every spelling of an int64 parses to it. */
  lemma ParseSpelling(sign: string, zeros: nat, n: int)
    requires InInt64(n) && SignFits(sign, n)
    ensures ParseInt64(Spelling(sign, zeros, n)) == Some(n)
  {
    var m := Magnitude(n);
    FormatNatDigits(m);
    var digits := Zeros(zeros) + FormatNat(m);
    LeadingZerosValue(zeros, FormatNat(m));
    assert Spelling(sign, zeros, n) == sign + digits;
    ParseSigned(sign, digits);
  }

  /** The parser on an explicit sign (or none) followed by a non-empty run of digits. */
  lemma ParseSigned(sign: string, digits: string)
    requires sign == "" || sign == "+" || sign == "-"
    requires |digits| > 0 && AllDigits(digits)
    ensures ParseInt64(sign + digits) == SignedValue(sign == "-", digits)
  {
    var s := sign + digits;
    if sign == "" {
      assert s == digits && IsDigit(s[0]);
    } else {
      assert s[0] == sign[0] && s[1..] == digits;
    }
  }

  /**
   * What a sign in front of unsigned text does: `+` changes nothing, `-` negates what the
   * text alone parses to, and the one value only `-` reaches is the least int64.
   */
  lemma ParseSignPrefix(d: string)
    requires |d| == 0 || (d[0] != '+' && d[0] != '-')
    ensures ParseInt64("+" + d) == ParseInt64(d)
    ensures ParseInt64(d).Some? ==> ParseInt64("-" + d) == Some(-ParseInt64(d).value)
    ensures ParseInt64("-" + d).Some? ==> ParseInt64("-" + d).value <= 0
    ensures ParseInt64("-" + d).Some? && ParseInt64("-" + d).value != -0x8000_0000_0000_0000
            ==> ParseInt64(d) == Some(-ParseInt64("-" + d).value)
  {
    assert ("+" + d)[0] == '+' && ("+" + d)[1..] == d;
    assert ("-" + d)[0] == '-' && ("-" + d)[1..] == d;
  }

  /** A run of digits is some leading zeros followed by the rendering of its value. */
  lemma DigitsSpelling(digits: string) returns (zeros: nat)
    requires |digits| > 0 && AllDigits(digits)
    ensures digits == Zeros(zeros) + FormatNat(DigitsValue(digits))
  {
    zeros := SplitLeadingZeros(digits);
    var r := digits[zeros..];
    LeadingZerosValue(zeros, r);
    CanonicalDigits(r);
  }

  /** The sign the parser strips, if any. */
  function SignPart(s: string): (sign: string)
    ensures |sign| <= |s|
  {
    if |s| > 0 && (s[0] == '+' || s[0] == '-') then s[..1] else ""
  }

  /** What the parser accepts is a fitting sign and digits that give the value's magnitude. */
  lemma ParsedParts(s: string)
    requires ParseInt64(s).Some?
    ensures var n := ParseInt64(s).value;
      var digits := s[|SignPart(s)|..];
      && InInt64(n) && SignFits(SignPart(s), n)
      && s == SignPart(s) + digits
      && |digits| > 0 && AllDigits(digits) && Magnitude(n) == DigitsValue(digits)
  {
    assert s == SignPart(s) + s[|SignPart(s)|..];
  }

  /** Whatever the parser accepts is a spelling of the value it returns. */
  lemma SpellingOfParse(s: string) returns (sign: string, zeros: nat)
    requires ParseInt64(s).Some?
    ensures InInt64(ParseInt64(s).value) && SignFits(sign, ParseInt64(s).value)
    ensures s == Spelling(sign, zeros, ParseInt64(s).value)
  {
    ParsedParts(s);
    sign := SignPart(s);
    var digits := s[|sign|..];
    zeros := DigitsSpelling(digits);
    var n := ParseInt64(s).value;
    var z, m := Zeros(zeros), FormatNat(Magnitude(n));
    assert s == sign + digits && digits == z + m;
    ConcatAssociates(sign, z, m);
    assert Spelling(sign, zeros, n) == sign + z + m;
  }

  lemma ConcatAssociates(a: string, b: string, c: string)
    ensures a + b + c == a + (b + c)
  {
  }

  /**
   * `ParseInt64` exactly: it returns `n` iff `n` fits in an int64 and the text is a
   * spelling of `n` (an optional fitting sign, leading zeros, the decimal digits).
   */
  lemma ParseInt64Exactly(s: string, n: int)
    ensures ParseInt64(s) == Some(n) <==>
      InInt64(n) && exists sign: string, zeros: nat :: SignFits(sign, n) && s == Spelling(sign, zeros, n)
  {
    if ParseInt64(s) == Some(n) {
      var sign, zeros := SpellingOfParse(s);
    }
    if InInt64(n) && exists sign: string, zeros: nat :: SignFits(sign, n) && s == Spelling(sign, zeros, n) {
      var sign: string, zeros: nat :| SignFits(sign, n) && s == Spelling(sign, zeros, n);
      ParseSpelling(sign, zeros, n);
    }
  }

  /** Accepted text never contains a space: the parser does no trimming of its own. */
  lemma {:induction false} ParseRejectsSpace(s: string, i: nat)
    requires i < |s| && s[i] == ' '
    ensures ParseInt64(s) == None
  {
    var sign := s[0] == '+' || s[0] == '-';
    var digits := if sign then s[1..] else s;
    var j := if sign then i - 1 else i;
    assert digits[j] == ' ';
    assert !AllDigits(digits);
  }

  /** Leading zeros and an explicit plus sign are accepted. */
  lemma ParseLeadingZeros()
    ensures ParseInt64("007") == Some(7)
    ensures ParseInt64("+9") == Some(9)
    ensures ParseInt64("-0") == Some(0)
  {
    assert DigitsValue("00") == 0 by { assert "00"[..1] == "0"; }
    assert "007"[..2] == "00";
  }

  /** A lone sign and the characters outside the digits fail. */
  lemma ParseRejectsGarbage()
    ensures ParseInt64("") == None
    ensures ParseInt64("-") == None
    ensures ParseInt64("5x5x5") == None
    ensures ParseInt64("1_000") == None
  {
    assert !IsDigit("5x5x5"[1]);
    assert !IsDigit("1_000"[1]);
  }

  /** One past either end of the int64 range fails. */
  lemma ParseRejectsOutOfRange()
    ensures ParseInt64(FormatInt(MaxInt64 + 1)) == None
    ensures ParseInt64(FormatInt(MinInt64 - 1)) == None
  {
    FormatNatDigits(MaxInt64 + 1);
    FormatNatDigits(-(MinInt64 - 1));
    assert FormatInt(MinInt64 - 1)[1..] == FormatNat(-(MinInt64 - 1));
  }

  /** `strings.TrimLeft(s, " ")`. */
  function TrimLeft(s: string): (r: string)
    ensures |r| <= |s| && r == s[|s| - |r|..]
    ensures r == [] || r[0] != ' '
  {
    if |s| > 0 && s[0] == ' ' then TrimLeft(s[1..]) else s
  }

  /** What `TrimLeft` cuts is all spaces. */
  lemma {:induction false} TrimLeftCutsSpaces(s: string)
    ensures forall i :: 0 <= i < |s| - |TrimLeft(s)| ==> s[i] == ' '
  {
    if |s| > 0 && s[0] == ' ' {
      TrimLeftCutsSpaces(s[1..]);
      assert forall i :: 1 <= i < |s| - |TrimLeft(s)| ==> s[i] == s[1..][i - 1];
    }
  }

  /** `strings.TrimRight(s, " ")`. */
  function TrimRight(s: string): (r: string)
    ensures |r| <= |s| && r == s[..|r|]
    ensures r == [] || r[|r| - 1] != ' '
  {
    if |s| > 0 && s[|s| - 1] == ' ' then TrimRight(s[..|s| - 1]) else s
  }

  /** What `TrimRight` cuts is all spaces. */
  lemma {:induction false} TrimRightCutsSpaces(s: string)
    ensures forall i :: |TrimRight(s)| <= i < |s| ==> s[i] == ' '
  {
    if |s| > 0 && s[|s| - 1] == ' ' {
      TrimRightCutsSpaces(s[..|s| - 1]);
    }
  }

  /** `strings.Trim(s, " ")`. */
  function Trim(s: string): (r: string)
  {
    TrimRight(TrimLeft(s))
  }

  /** Trimming keeps the slice of `s` that starts where the leading spaces end. */
  lemma TrimSlice(s: string)
    ensures |TrimLeft(s)| >= |Trim(s)|
    ensures Trim(s) == s[|s| - |TrimLeft(s)|..|s| - |TrimLeft(s)| + |Trim(s)|]
  {
    var l := TrimLeft(s);
    var r := TrimRight(l);
    assert Trim(s) == r;
    assert |l| <= |s| && l == s[|s| - |l|..];
    assert |r| <= |l| && r == l[..|r|];
    PrefixOfSuffix(s, l, r);
  }

  /** A prefix of a suffix is a slice. */
  lemma PrefixOfSuffix(s: string, l: string, r: string)
    requires |l| <= |s| && l == s[|s| - |l|..]
    requires |r| <= |l| && r == l[..|r|]
    ensures r == s[|s| - |l|..|s| - |l| + |r|]
  {
  }

  /**
   * What trimming cuts and keeps: everything cut off on either side of the slice
   * `TrimSlice` names is a space, and what is kept has no space at either end.
   */
  lemma TrimShape(s: string)
    ensures forall k :: 0 <= k < |s| - |TrimLeft(s)| ==> s[k] == ' '
    ensures forall k :: |s| - |TrimLeft(s)| + |Trim(s)| <= k < |s| ==> s[k] == ' '
    ensures Trim(s) == [] || (Trim(s)[0] != ' ' && Trim(s)[|Trim(s)| - 1] != ' ')
  {
    var l := TrimLeft(s);
    var r := TrimRight(l);
    var i := |s| - |l|;
    assert Trim(s) == r;
    TrimLeftCutsSpaces(s);
    TrimRightCutsSpaces(l);
    forall k | i + |r| <= k < |s|
      ensures s[k] == ' '
    {
      assert s[k] == l[k - i];
    }
    if |r| > 0 {
      assert r[0] == l[0];
    }
  }

  /** Trimming is empty exactly when the text is all spaces. */
  lemma TrimEmptyIffBlank(s: string)
    ensures Trim(s) == [] <==> forall k :: 0 <= k < |s| ==> s[k] == ' '
  {
    TrimSlice(s);
    TrimShape(s);
  }

  /** Trimming twice is trimming once. */
  lemma TrimIdempotent(s: string)
    ensures Trim(Trim(s)) == Trim(s)
  {
    TrimSlice(s);
    TrimShape(s);
    TrimSlice(Trim(s));
    TrimShape(Trim(s));
  }

  /** One space either side is cut. */
  lemma TrimOuterSpaces()
    ensures Trim(" v3 ") == "v3"
  {
    assert " v3 "[1..] == "v3 ";
    assert TrimLeft(" v3 ") == "v3 ";
    assert "v3 "[..2] == "v3";
    assert TrimRight("v3 ") == "v3";
  }

  /** Spaces inside are kept. */
  lemma TrimKeepsInnerSpaces()
    ensures Trim(" 4 0 3 ") == "4 0 3"
  {
    assert " 4 0 3 "[1..] == "4 0 3 ";
    assert TrimLeft(" 4 0 3 ") == "4 0 3 ";
    assert "4 0 3 "[..5] == "4 0 3";
    assert TrimRight("4 0 3 ") == "4 0 3";
  }

  /** Text without spaces at its ends, a tab among them, is left alone. */
  lemma TrimLeavesUnspaced()
    ensures Trim("999") == "999"
    ensures Trim("\t1") == "\t1"
  {
    assert TrimLeft("999") == "999" && TrimRight("999") == "999";
    assert TrimLeft("\t1") == "\t1" && TrimRight("\t1") == "\t1";
  }

  /** The identities of the certificate-mismatch scenario. */
  lemma ParseSmallExamples()
    ensures ParseInt64("9") == Some(9)
    ensures ParseInt64("999") == Some(999)
  {
    assert "999"[..2] == "99" && "99"[..1] == "9";
  }
}
