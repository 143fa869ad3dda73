/** Rendering of numbers and the small string operations the service relies
    on: decimal digits (Python's str()/f-strings, JavaScript's toString()),
    zero padding, one-decimal rounding, strip/lstrip and ASCII lower-casing. */
module Text {

  predicate IsDigit(c: char) {
    '0' <= c <= '9'
  }

  predicate AllDigits(s: string) {
    forall i :: 0 <= i < |s| ==> IsDigit(s[i])
  }

  function DigitValue(c: char): (d: nat)
    requires IsDigit(c)
    ensures d < 10
  {
    c as int - '0' as int
  }

  function DigitChar(d: nat): (c: char)
    requires d < 10
    ensures IsDigit(c) && DigitValue(c) == d
  {
    ('0' as int + d) as char
  }

  /** Decimal rendering of a natural number, without leading zeros. */
  function NatToString(n: nat): (s: string)
    ensures 1 <= |s| && AllDigits(s)
    ensures |s| == 1 <==> n < 10
    ensures s[0] == '0' ==> n == 0
  {
    if n < 10 then [DigitChar(n)] else NatToString(n / 10) + [DigitChar(n % 10)]
  }

  /** The value of a string of decimal digits: the inverse of NatToString. */
  function ParseDigits(s: string): nat
    requires AllDigits(s)
  {
    if s == [] then 0 else 10 * ParseDigits(s[..|s| - 1]) + DigitValue(s[|s| - 1])
  }

  lemma {:induction false} ParseNatToString(n: nat)
    ensures ParseDigits(NatToString(n)) == n
  {
    if n >= 10 {
      var s := NatToString(n / 10);
      var t := s + [DigitChar(n % 10)];
      assert t[..|t| - 1] == s;
      ParseNatToString(n / 10);
    }
  }

  /** Leading zeros do not change the value of a digit string. */
  lemma {:induction false} ParseLeadingZero(s: string)
    requires AllDigits(s)
    ensures AllDigits("0" + s) && ParseDigits("0" + s) == ParseDigits(s)
  {
    if s != [] {
      var t := "0" + s;
      assert t[..|t| - 1] == "0" + s[..|s| - 1];
      ParseLeadingZero(s[..|s| - 1]);
    }
  }

  /** Decimal rendering of an integer, with a leading '-' when negative. */
  function IntToString(n: int): (s: string)
    ensures 1 <= |s|
    ensures s[0] == '-' <==> n < 0
    ensures n < 0 ==> AllDigits(s[1..]) && ParseDigits(s[1..]) == -n
    ensures n >= 0 ==> AllDigits(s) && ParseDigits(s) == n
  {
    ParseNatToString(if n < 0 then -n else n);
    if n < 0 then "-" + NatToString(-n) else NatToString(n)
  }

  /** Left padding with '0' up to two characters (Python's `:02d`,
      JavaScript's `padStart(2, '0')`). */
  function PadTwo(s: string): (r: string)
    ensures |s| >= 2 ==> r == s
    ensures |s| < 2 ==> |r| == 2 && r[2 - |s|..] == s
    ensures |s| < 2 ==> forall i :: 0 <= i < 2 - |s| ==> r[i] == '0'
    decreases 2 - |s|
  {
    if |s| >= 2 then s else PadTwo("0" + s)
  }

  lemma TwoDigitsOfSmall(n: nat)
    requires n < 100
    ensures |PadTwo(NatToString(n))| == 2
    ensures AllDigits(PadTwo(NatToString(n)))
    ensures ParseDigits(PadTwo(NatToString(n))) == n
  {
    var s := NatToString(n);
    ParseNatToString(n);
    if n < 10 {
      assert PadTwo(s) == "0" + s;
      ParseLeadingZero(s);
    } else {
      assert |NatToString(n / 10)| == 1;
    }
  }

  /** Rounding of a / b to the nearest integer, ties to the even one: the
      rule Python's round() and `:.1f` apply to an exactly representable value. */
  function RoundHalfEven(a: nat, b: nat): nat
    requires b > 0
  {
    var q, m := a / b, a % b;
    if 2 * m < b || (2 * m == b && q % 2 == 0) then q else q + 1
  }

  /** The rounded value is the quotient when the remainder is under half the
      divisor, the next integer when it is over, and the even one of the two
      on a tie. */
  lemma RoundHalfEvenSpec(a: nat, b: nat)
    requires b > 0
    ensures var r := RoundHalfEven(a, b);
      && (2 * (a % b) < b ==> r == a / b)
      && (2 * (a % b) > b ==> r == a / b + 1)
      && (2 * (a % b) == b ==> (r == a / b || r == a / b + 1) && r % 2 == 0)
  {
  }

  /** The rounded quotient is within half a unit of the exact one:
      |a - r * b| <= b / 2. */
  lemma RoundingError(a: nat, b: nat)
    requires b > 0
    ensures -(b as int) <= 2 * (a - RoundHalfEven(a, b) * b) <= b
  {
    var r := RoundHalfEven(a, b);
    var q, m := a / b, a % b;
    RoundHalfEvenSpec(a, b);
    assert a == q * b + m;
    if 2 * m < b {
      assert r == q;
    } else if 2 * m > b {
      assert r == q + 1;
      assert a - r * b == m - b;
    } else {
      assert r * b == q * b || r * b == q * b + b;
    }
  }

  /** One-decimal rendering of a / b (Python's `f"{a / b:.1f}"` when the
      quotient is exactly representable). */
  function OneDecimal(a: nat, b: nat): (s: string)
    requires b > 0
    ensures |s| >= 3 && s[|s| - 2] == '.' && IsDigit(s[|s| - 1])
  {
    var tenths := RoundHalfEven(10 * a, b);
    NatToString(tenths / 10) + "." + [DigitChar(tenths % 10)]
  }

  /** The characters Python's str.strip() removes: those for which
      str.isspace() holds, the ASCII ones (tab to carriage return, the four
      separators U+001C..U+001F, space) and the Unicode spaces and line
      separators. */
  const Whitespace: set<char> := {
    '\t', '\n', 11 as char, 12 as char, '\r',
    0x1c as char, 0x1d as char, 0x1e as char, 0x1f as char, ' ',
    0x85 as char, 0xa0 as char, 0x1680 as char,
    0x2000 as char, 0x2001 as char, 0x2002 as char, 0x2003 as char, 0x2004 as char, 0x2005 as char,
    0x2006 as char, 0x2007 as char, 0x2008 as char, 0x2009 as char, 0x200a as char,
    0x2028 as char, 0x2029 as char, 0x202f as char, 0x205f as char, 0x3000 as char}

  /** Python's s.lstrip(chars): drop leading characters that are in `chars`. */
  function LStrip(s: string, chars: set<char>): string {
    if s != [] && s[0] in chars then LStrip(s[1..], chars) else s
  }

  /** lstrip() leaves a suffix of its input that does not start with one of
      `chars`, and everything it drops is one of `chars`. */
  lemma {:induction false} LStripSpec(s: string, chars: set<char>)
    ensures var r := LStrip(s, chars);
      && |r| <= |s| && r == s[|s| - |r|..]
      && (r == [] || r[0] !in chars)
      && forall i :: 0 <= i < |s| - |r| ==> s[i] in chars
  {
    if s != [] && s[0] in chars {
      LStripSpec(s[1..], chars);
      var r := LStrip(s, chars);
      assert r == LStrip(s[1..], chars);
      assert s[1..][|s| - 1 - |r|..] == s[|s| - |r|..];
      assert forall i :: 1 <= i < |s| - |r| ==> s[i] == s[1..][i - 1];
    }
  }

  /** Python's s.rstrip(chars): drop trailing characters that are in `chars`. */
  function RStrip(s: string, chars: set<char>): string {
    if s != [] && s[|s| - 1] in chars then RStrip(s[..|s| - 1], chars) else s
  }

  /** rstrip() leaves a prefix of its input that does not end with one of
      `chars`, and everything it drops is one of `chars`. */
  lemma {:induction false} RStripSpec(s: string, chars: set<char>)
    ensures var r := RStrip(s, chars);
      && |r| <= |s| && r == s[..|r|]
      && (r == [] || r[|r| - 1] !in chars)
      && forall i :: |r| <= i < |s| ==> s[i] in chars
  {
    if s != [] && s[|s| - 1] in chars {
      RStripSpec(s[..|s| - 1], chars);
      var r := RStrip(s, chars);
      assert r == RStrip(s[..|s| - 1], chars);
      assert s[..|s| - 1][..|r|] == s[..|r|];
      assert forall i :: |r| <= i < |s| - 1 ==> s[i] == s[..|s| - 1][i];
    }
  }

  /** Python's s.strip(): both ends, whitespace. */
  function Strip(s: string): (r: string)
  {
    RStrip(LStrip(s, Whitespace), Whitespace)
  }

  /** strip() removes exactly a whitespace prefix and a whitespace suffix,
      and leaves no whitespace at either end. */
  lemma StripIsInfix(s: string)
    ensures var r := Strip(s);
      exists i, j :: 0 <= i <= j <= |s| && r == s[i..j]
        && (forall k :: 0 <= k < i ==> s[k] in Whitespace)
        && (forall k :: j <= k < |s| ==> s[k] in Whitespace)
        && (r == [] || (r[0] !in Whitespace && r[|r| - 1] !in Whitespace))
  {
    var l := LStrip(s, Whitespace);
    var r := RStrip(l, Whitespace);
    LStripSpec(s, Whitespace);
    RStripSpec(l, Whitespace);
    var i := |s| - |l|;
    var j := i + |r|;
    assert l == s[i..];
    assert r == l[..|r|];
    assert r == s[i..j];
    assert forall k :: j <= k < |s| ==> s[k] == l[k - i];
    if r != [] {
      assert r[0] == l[0];
    }
    assert 0 <= i <= j <= |s| && r == s[i..j]
        && (forall k :: 0 <= k < i ==> s[k] in Whitespace)
        && (forall k :: j <= k < |s| ==> s[k] in Whitespace)
        && (r == [] || (r[0] !in Whitespace && r[|r| - 1] !in Whitespace));
  }

  /** A string with no whitespace at either end is left alone by strip(). */
  lemma StripClean(s: string)
    requires s == [] || (s[0] !in Whitespace && s[|s| - 1] !in Whitespace)
    ensures Strip(s) == s
  {
  }

  function LowerChar(c: char): (d: char)
    ensures 'A' <= c <= 'Z' ==> d as int == c as int + 32
    ensures !('A' <= c <= 'Z') ==> d == c
  {
    if 'A' <= c <= 'Z' then (c as int + 32) as char else c
  }

  /** Python's str.lower() on ASCII letters. */
  function Lower(s: string): (r: string)
    ensures |r| == |s|
    ensures forall i :: 0 <= i < |s| ==> r[i] == LowerChar(s[i])
  {
    seq(|s|, i requires 0 <= i < |s| => LowerChar(s[i]))
  }
}
