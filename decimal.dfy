/**
 * Decimal text as Rust's `Display` for integers writes it, zero padding as the `{:0N}` format
 * spec does, and the `str::parse::<i32>` reading of short digit strings.
 */
module Decimal {
  import opened Wrappers
  import opened Text

  predicate IsDigit(c: char) {
    '0' <= c <= '9'
  }

  predicate AllDigits(s: string) {
    forall i :: 0 <= i < |s| ==> IsDigit(s[i])
  }

  function DigitChar(d: nat): (c: char)
    requires d < 10
    ensures IsDigit(c) && c as int - '0' as int == d
  {
    ('0' as int + d) as char
  }

  /** `n.to_string()` for a non-negative integer: its shortest decimal digits. */
  function NatToString(n: nat): (r: string)
    ensures r != [] && AllDigits(r)
    ensures |r| > 1 ==> r[0] != '0'
    decreases n
  {
    if n < 10 then [DigitChar(n)]
    else NatToString(n / 10) + [DigitChar(n % 10)]
  }

  /** `n.to_string()` for a signed integer: a '-' in front of the digits when negative. */
  function IntToString(n: int): (r: string)
    ensures n >= 0 ==> r == NatToString(n)
    ensures n < 0 ==> r == "-" + NatToString(-n)
  {
    if n < 0 then "-" + NatToString(-n) else NatToString(n)
  }

  /** `format!("{:0w}", n)`: the digits of `n`, left-padded with '0' up to `w` characters. */
  function PadNat(n: nat, w: nat): (r: string)
    ensures |r| == if |NatToString(n)| < w then w else |NatToString(n)|
    ensures AllDigits(r)
    ensures EndsWith(r, NatToString(n))
  {
    var d := NatToString(n);
    if |d| < w then seq(w - |d|, _ => '0') + d else d
  }

  /** The value of a non-empty string of decimal digits. */
  function DigitsValue(s: string): (v: nat)
    requires AllDigits(s)
    decreases |s|
  {
    if s == [] then 0
    else DigitsValue(s[..|s| - 1]) * 10 + (s[|s| - 1] as int - '0' as int)
  }

  /**
   * `s.parse::<i32>()` on a short string: an optional '+' or '-' followed by at least one
   * decimal digit; anything else is an error.
   */
  function ParseInt(s: string): (r: Option<int>)
    ensures r.Some? <==> (s != [] && (
      if s[0] == '+' || s[0] == '-' then |s| >= 2 && AllDigits(s[1..]) else AllDigits(s)))
  {
    if s == [] then None
    else if s[0] == '+' || s[0] == '-' then
      var t := s[1..];
      if t != [] && AllDigits(t) then
        var v: int := DigitsValue(t);
        Some(if s[0] == '-' then -v else v)
      else None
    else if AllDigits(s) then Some(DigitsValue(s))
    else None
  }

  /** Reading back the digits of `n` gives `n`. */
  lemma {:induction false} DigitsValueOfNat(n: nat)
    ensures DigitsValue(NatToString(n)) == n
    decreases n
  {
    if n >= 10 {
      var d := NatToString(n);
      assert d[..|d| - 1] == NatToString(n / 10);
      DigitsValueOfNat(n / 10);
    }
  }

  /** Leading zeros do not change a value. */
  lemma {:induction false} DigitsValueZeros(k: nat, s: string)
    requires AllDigits(s)
    ensures AllDigits(seq(k, _ => '0') + s) && DigitsValue(seq(k, _ => '0') + s) == DigitsValue(s)
    decreases |s|
  {
    var z := seq(k, _ => '0');
    if s == [] {
      assert z + s == z;
      ZerosValue(k);
    } else {
      assert (z + s)[..|z + s| - 1] == z + s[..|s| - 1];
      DigitsValueZeros(k, s[..|s| - 1]);
    }
  }

  lemma {:induction false} ZerosValue(k: nat)
    ensures DigitsValue(seq(k, _ => '0')) == 0
  {
    if k > 0 {
      assert seq(k, _ => '0')[..k - 1] == seq(k - 1, _ => '0');
      ZerosValue(k - 1);
    }
  }

  /** Padded text still reads back as the number it came from. */
  lemma PadNatValue(n: nat, w: nat)
    ensures DigitsValue(PadNat(n, w)) == n
  {
    var d := NatToString(n);
    DigitsValueOfNat(n);
    if |d| < w {
      assert PadNat(n, w) == seq(w - |d|, _ => '0') + d;
      DigitsValueZeros(w - |d|, d);
    } else {
      assert PadNat(n, w) == d;
    }
  }

  /** Different numbers are written differently, with or without the same padding. */
  lemma PadNatInjective(a: nat, b: nat, w: nat)
    requires PadNat(a, w) == PadNat(b, w)
    ensures a == b
  {
    PadNatValue(a, w);
    PadNatValue(b, w);
  }

  /** `to_string` then `parse` gives the number back, signed or not. */
  lemma ParseIntToString(n: int)
    ensures ParseInt(IntToString(n)) == Some(n)
  {
    var s := IntToString(n);
    if n < 0 {
      var d := NatToString(-n);
      assert s[0] == '-' && s[1..] == d;
      DigitsValueOfNat(-n);
      assert ParseInt(s) == Some(0 - DigitsValue(d) as int);
    } else {
      assert IsDigit(s[0]);
      DigitsValueOfNat(n);
      assert ParseInt(s) == Some(DigitsValue(s));
    }
  }

  /** Padding a number that fits in `w` digits gives exactly `w` digits that read back as it. */
  lemma PadNatExact(n: nat, w: nat)
    requires |NatToString(n)| <= w
    ensures |PadNat(n, w)| == w && AllDigits(PadNat(n, w)) && DigitsValue(PadNat(n, w)) == n
  {
    PadNatValue(n, w);
  }

  function Pow10(w: nat): (p: nat)
    ensures p >= 1
  {
    if w == 0 then 1 else 10 * Pow10(w - 1)
  }

  /** A number below 10^w has at most `w` digits. */
  lemma {:induction false} NatToStringShort(n: nat, w: nat)
    requires n < Pow10(w) && 1 <= w
    ensures |NatToString(n)| <= w
    decreases w
  {
    if n >= 10 {
      assert n / 10 < Pow10(w - 1);
      NatToStringShort(n / 10, w - 1);
    }
  }
}
