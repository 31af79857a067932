/**
 * Decimal text for integers: `int.TryParse` with its default style
 * (leading and trailing white space, an optional sign, decimal digits,
 * a 32-bit result), and `int.ToString()` for the ids the responses show.
 */
module Numerals {
  import opened Wrappers

  const Int32Min := -0x8000_0000
  const Int32Max := 0x7FFF_FFFF

  /** The white space `NumberStyles.AllowLeadingWhite` and `AllowTrailingWhite` skip. */
  predicate IsNumberWhite(c: char)
  {
    ('\U{9}' <= c <= '\U{D}') || c == ' '
  }

  predicate IsDigit(c: char)
  {
    '0' <= c <= '9'
  }

  predicate AllDigits(s: string)
  {
    forall i :: 0 <= i < |s| ==> IsDigit(s[i])
  }

  function DigitValue(c: char): (d: nat)
    requires IsDigit(c)
    ensures d < 10
  {
    (c - '0') as nat
  }

  function DigitChar(d: nat): (c: char)
    requires d < 10
    ensures IsDigit(c) && DigitValue(c) == d
  {
    ('0' as int + d) as char
  }

  /** The number a string of decimal digits denotes, most significant first. */
  function DigitsValue(s: string): (n: nat)
    requires AllDigits(s)
  {
    if s == [] then 0 else DigitsValue(s[..|s| - 1]) * 10 + DigitValue(s[|s| - 1])
  }

  /** `n` in decimal, without leading zeros. */
  function Decimal(n: nat): (s: string)
    ensures s != [] && AllDigits(s)
  {
    if n < 10 then [DigitChar(n)] else Decimal(n / 10) + [DigitChar(n % 10)]
  }

  /** `int.ToString()` with the invariant culture. */
  function IntToString(i: int): string
  {
    if i < 0 then "-" + Decimal(-i) else Decimal(i)
  }

  function TrimStartWhite(s: string): (r: string)
    ensures r <= s || (|r| <= |s| && r == s[|s| - |r|..])
    ensures r != [] ==> !IsNumberWhite(r[0])
  {
    if s != [] && IsNumberWhite(s[0]) then TrimStartWhite(s[1..]) else s
  }

  function TrimEndWhite(s: string): (r: string)
    ensures r <= s
    ensures r != [] ==> !IsNumberWhite(r[|r| - 1])
  {
    if s != [] && IsNumberWhite(s[|s| - 1]) then TrimEndWhite(s[..|s| - 1]) else s
  }

  /**
   * `int.TryParse(s, out v)`: `Some(v)` when `s` is optional white space,
   * an optional sign, one or more decimal digits and optional white space,
   * and the value fits in 32 bits; `None` otherwise.
   */
  function TryParseInt32(s: string): (r: Option<int>)
    ensures r.Some? ==> Int32Min <= r.value <= Int32Max
  {
    ParseTrimmed(TrimEndWhite(TrimStartWhite(s)))
  }

  /** The sign-and-digits part of `TryParseInt32`, once the white space is trimmed. */
  function ParseTrimmed(t: string): (r: Option<int>)
    ensures r.Some? ==> Int32Min <= r.value <= Int32Max
  {
    var negative := t != [] && t[0] == '-';
    var digits := if t != [] && (t[0] == '-' || t[0] == '+') then t[1..] else t;
    if digits == [] || !AllDigits(digits) then None
    else
      var magnitude: int := DigitsValue(digits);
      var v := if negative then -magnitude else magnitude;
      if Int32Min <= v <= Int32Max then Some(v) else None
  }

  lemma {:induction false} DecimalValue(n: nat)
    ensures DigitsValue(Decimal(n)) == n
  {
    if n >= 10 {
      var s := Decimal(n);
      assert s[..|s| - 1] == Decimal(n / 10);
      DecimalValue(n / 10);
    }
  }

  /** Reading back the text of any 32-bit integer gives that integer. */
  lemma ParseIntToString(i: int)
    requires Int32Min <= i <= Int32Max
    ensures TryParseInt32(IntToString(i)) == Some(i)
  {
    var s := IntToString(i);
    var d := if i < 0 then Decimal(-i) else Decimal(i);
    assert TrimStartWhite(s) == s;
    assert TrimEndWhite(s) == s;
    if i < 0 {
      assert s[1..] == d;
      DecimalValue(-i);
    } else {
      DecimalValue(i);
    }
  }
  predicate AllWhite(s: string)
  {
    forall i :: 0 <= i < |s| ==> IsNumberWhite(s[i])
  }

  /** Leading white space is skipped up to the first other character. */
  lemma {:induction false} TrimStartSkipsWhite(w: string, rest: string)
    requires AllWhite(w)
    requires rest == [] || !IsNumberWhite(rest[0])
    ensures TrimStartWhite(w + rest) == rest
  {
    if w != [] {
      assert (w + rest)[1..] == w[1..] + rest;
      TrimStartSkipsWhite(w[1..], rest);
    }
  }

  /** Trailing white space is skipped back to the last other character. */
  lemma {:induction false} TrimEndSkipsWhite(core: string, w: string)
    requires AllWhite(w)
    requires core == [] || !IsNumberWhite(core[|core| - 1])
    ensures TrimEndWhite(core + w) == core
  {
    if w != [] {
      assert (core + w)[..|core + w| - 1] == core + w[..|w| - 1];
      TrimEndSkipsWhite(core, w[..|w| - 1]);
    }
  }

  /** Trimming both ends of `w1 + core + w2` leaves `core` when `core` has no white space at its ends. */
  lemma TrimBoth(w1: string, core: string, w2: string)
    requires AllWhite(w1) && AllWhite(w2)
    requires core != [] && !IsNumberWhite(core[0]) && !IsNumberWhite(core[|core| - 1])
    ensures TrimEndWhite(TrimStartWhite(w1 + core + w2)) == core
  {
    assert w1 + core + w2 == w1 + (core + w2);
    TrimStartSkipsWhite(w1, core + w2);
    TrimEndSkipsWhite(core, w2);
  }

  /**
   * Every string of the accepted shape parses to its signed value:
   * white space, an optional sign, digits (leading zeros allowed), white space.
   */
  lemma ParseSignedDigits(w1: string, sign: string, d: string, w2: string)
    requires AllWhite(w1) && AllWhite(w2)
    requires sign == "" || sign == "+" || sign == "-"
    requires d != [] && AllDigits(d)
    requires Int32Min <= (if sign == "-" then -(DigitsValue(d) as int) else DigitsValue(d)) <= Int32Max
    ensures TryParseInt32(w1 + sign + d + w2)
         == Some(if sign == "-" then -(DigitsValue(d) as int) else DigitsValue(d))
  {
    TrimSignedDigits(w1, sign, d, w2);
    ParseSignAndDigits(sign, d);
  }

  /** A sign followed by digits reads as their signed value. */
  lemma ParseSignAndDigits(sign: string, d: string)
    requires sign == "" || sign == "+" || sign == "-"
    requires d != [] && AllDigits(d)
    requires Int32Min <= (if sign == "-" then -(DigitsValue(d) as int) else DigitsValue(d)) <= Int32Max
    ensures ParseTrimmed(sign + d)
         == Some(if sign == "-" then -(DigitsValue(d) as int) else DigitsValue(d))
  {
    var core := sign + d;
    if sign != "" {
      assert core[0] == sign[0] && core[1..] == d;
    } else {
      assert core == d;
    }
  }

  /** Trimming the white space around a signed digit string leaves the sign and the digits. */
  lemma TrimSignedDigits(w1: string, sign: string, d: string, w2: string)
    requires AllWhite(w1) && AllWhite(w2)
    requires sign == "" || sign == "+" || sign == "-"
    requires d != [] && AllDigits(d)
    ensures TrimEndWhite(TrimStartWhite(w1 + sign + d + w2)) == sign + d
  {
    var core := sign + d;
    assert IsDigit(d[0]) && IsDigit(d[|d| - 1]);
    assert core[|core| - 1] == d[|d| - 1];
    TrimBoth(w1, core, w2);
    Regroup(w1, sign, d, w2);
  }

  lemma Regroup(a: string, b: string, c: string, e: string)
    ensures a + b + c + e == a + (b + c) + e
  {
  }
}
