/** The reading of a quantity the client sent as text: a plain decimal numeral
    (optional sign, digits, optional fraction) surrounded by optional white space.
    Floating point, exponents, "Infinity" and the reading of a numeric prefix
    followed by other text are not part of this model. */
module Decimal {
  import opened Wrappers
  import opened Text

  predicate IsDigit(c: char) {
    '0' <= c <= '9'
  }

  predicate AllDigits(s: string) {
    forall k :: 0 <= k < |s| ==> IsDigit(s[k])
  }

  function DigitValue(c: char): nat
    requires IsDigit(c)
  {
    c as int - '0' as int
  }

  /** The value of a string of decimal digits, most significant first. */
  function DigitsValue(s: string): nat
    requires AllDigits(s)
  {
    if s == [] then 0 else DigitsValue(s[..|s| - 1]) * 10 + DigitValue(s[|s| - 1])
  }

  function Pow10(n: nat): (p: nat)
    ensures p >= 1
  {
    if n == 0 then 1 else 10 * Pow10(n - 1)
  }

  /** An unsigned numeral: digits, optionally a '.' and more digits, with at least
      one digit in all. */
  function ParseUnsigned(s: string): (r: Option<real>)
    ensures r.Some? ==> r.value >= 0.0
    ensures r.Some? ==> s != [] && (IsDigit(s[0]) || s[0] == '.')
  {
    var dot := IndexOf(s, ".", 0);
    var whole := if dot.Some? then s[..dot.value] else s;
    var fraction := if dot.Some? then s[dot.value + 1..] else "";
    if |whole| + |fraction| > 0 && AllDigits(whole) && AllDigits(fraction) then
      assert s != [] && (IsDigit(s[0]) || s[0] == '.') by {
        if dot.Some? && dot.value == 0 {
          assert MatchesAt(s, ".", 0, false);
          assert SameChar(s[0 + 0], "."[0], false);
        } else {
          assert whole != [] && whole[0] == s[0] && IsDigit(whole[0]);
        }
      }
      Some(DigitsValue(whole) as real + DigitsValue(fraction) as real / Pow10(|fraction|) as real)
    else
      None
  }

  /** The number a quantity string denotes, or None for "not a number". */
  function ParseDecimal(s: string): (r: Option<real>)
    ensures r.Some? ==> !AllSpace(s)
  {
    var t := Trim(s);
    if t != [] && t[0] == '-' then
      var u := ParseUnsigned(t[1..]);
      if u.Some? then Some(-u.value) else None
    else if t != [] && t[0] == '+' then
      ParseUnsigned(t[1..])
    else
      ParseUnsigned(t)
  }

  /** A numeral written with a minus sign never denotes a positive quantity. */
  lemma MinusIsNotPositive(s: string)
    requires s != [] && s[0] == '-'
    ensures ParseDecimal(s).Some? ==> ParseDecimal(s).value <= 0.0
  {
    assert !IsSpace(s[0]);
    assert LeadingSpace(s) == 0;
    var t := Trim(s);
    assert t != [] ==> t[0] == s[0];
  }

  /** The decimal digits of n, most significant first, without leading zeros. */
  function NatToDecimal(n: nat): (s: string)
    ensures s != [] && AllDigits(s)
  {
    var last := ('0' as int + n % 10) as char;
    if n < 10 then [last] else NatToDecimal(n / 10) + [last]
  }

  lemma {:induction false} NatToDecimalValue(n: nat)
    ensures DigitsValue(NatToDecimal(n)) == n
  {
    var s := NatToDecimal(n);
    if n >= 10 {
      NatToDecimalValue(n / 10);
      assert s[..|s| - 1] == NatToDecimal(n / 10);
    }
  }

  /** Writing a whole number in decimal and reading it back gives the number. */
  lemma {:induction false} NatRoundTrip(n: nat)
    ensures ParseDecimal(NatToDecimal(n)) == Some(n as real)
  {
    var s := NatToDecimal(n);
    assert Trim(s) == s by {
      assert IsDigit(s[0]) && IsDigit(s[|s| - 1]);
    }
    assert IndexOf(s, ".", 0) == None by {
      forall k | 0 <= k < |s| ensures s[k] != '.' {
        assert IsDigit(s[k]);
      }
      NotContainsWithoutFirst(s, ".");
    }
    assert ParseUnsigned(s) == Some(n as real) by {
      NatToDecimalValue(n);
      assert Pow10(0) == 1;
    }
    assert IsDigit(s[0]);
  }
}
