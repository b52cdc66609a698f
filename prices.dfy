/**
 * A product's price is stored as a string and only turned into an amount
 * when somebody buys it, with Rust's `str::parse::<u128>`. This module gives
 * that parser twice: `Accumulate` follows the library's digit loop (checked
 * multiply by ten, checked add), and `Denotation` says what a u128 literal
 * means. `ParseU128` is proved to agree with the latter on every string.
 */
module Prices {
  import opened Options

  const U128_MAX: nat := 0xFFFF_FFFF_FFFF_FFFF_FFFF_FFFF_FFFF_FFFF

  /** An amount of yoctoNEAR, as NEAR's `Balance` (a `u128`). */
  type U128 = x: int | 0 <= x <= U128_MAX

  predicate IsDigit(c: char) {
    '0' <= c <= '9'
  }

  predicate AllDigits(d: string) {
    forall i :: 0 <= i < |d| ==> IsDigit(d[i])
  }

  function DigitValue(c: char): (v: nat)
    requires IsDigit(c)
    ensures v < 10
  {
    (c as int) - ('0' as int)
  }

  /** The number a string of decimal digits denotes, most significant digit first. */
  function DecimalValue(d: string): nat
    requires AllDigits(d)
  {
    if d == [] then 0 else DecimalValue(d[..|d| - 1]) * 10 + DigitValue(d[|d| - 1])
  }

  /**
   * What a u128 literal means: an optional leading '+', then at least one
   * decimal digit and nothing else, denoting a value that fits in 128 bits.
   * Anything else (empty, a lone '+', a '-', spaces, an overflow) is no amount.
   */
  function Denotation(s: string): Option<U128> {
    var d := if |s| > 0 && s[0] == '+' then s[1..] else s;
    if |d| > 0 && AllDigits(d) && DecimalValue(d) <= U128_MAX then Some(DecimalValue(d)) else None
  }

  /** The library's digit loop: multiply the running value by ten and add the next digit, failing on a non-digit or on overflow. */
  function Accumulate(acc: U128, digits: string): Option<U128>
    decreases |digits|
  {
    if digits == [] then Some(acc)
    else if !IsDigit(digits[0]) then None
    else
      var next := acc * 10 + DigitValue(digits[0]);
      if next > U128_MAX then None else Accumulate(next, digits[1..])
  }

  /**
   * `price.parse::<u128>()`: an empty string or a lone '+' is rejected, one
   * leading '+' is skipped (a '-' is not, since the type is unsigned), and
   * the rest goes through the digit loop.
   */
  function ParseU128(s: string): (r: Option<U128>)
    ensures r == Denotation(s)
  {
    AccumulateFromEmpty(if |s| > 0 && s[0] == '+' then s[1..] else s);
    if s == [] then None
    else if s == "+" then None
    else if s[0] == '+' then Accumulate(0, s[1..])
    else Accumulate(0, s)
  }

  /** Appending digits never makes a decimal value smaller. */
  lemma {:induction false} DecimalValueGrows(p: string, d: string)
    requires AllDigits(p) && AllDigits(d)
    ensures AllDigits(p + d) && DecimalValue(p) <= DecimalValue(p + d)
  {
    if d == [] {
      assert p + d == p;
    } else {
      var q := p + d[..|d| - 1];
      DecimalValueGrows(p, d[..|d| - 1]);
      assert (p + d)[..|p + d| - 1] == q;
      assert DecimalValue(p + d) == DecimalValue(q) * 10 + DigitValue(d[|d| - 1]);
    }
  }

  /**
   * Running the digit loop from the value of the digits already read gives
   * the value of all digits, or fails exactly when a non-digit follows or
   * the whole value does not fit.
   */
  lemma {:induction false} AccumulateMeaning(p: string, d: string)
    requires AllDigits(p) && DecimalValue(p) <= U128_MAX
    ensures AllDigits(p + d) <==> AllDigits(d)
    ensures Accumulate(DecimalValue(p), d)
            == if AllDigits(d) && DecimalValue(p + d) <= U128_MAX then Some(DecimalValue(p + d)) else None
    decreases |d|
  {
    assert AllDigits(p + d) <==> AllDigits(d) by {
      if AllDigits(d) {
        forall i | 0 <= i < |p + d| ensures IsDigit((p + d)[i]) {
          if i >= |p| { assert (p + d)[i] == d[i - |p|]; }
        }
      } else {
        var i :| 0 <= i < |d| && !IsDigit(d[i]);
        assert (p + d)[|p| + i] == d[i];
      }
    }
    if d == [] {
      assert p + d == p;
    } else if !IsDigit(d[0]) {
    } else {
      var p' := p + [d[0]];
      assert p'[..|p'| - 1] == p;
      assert p' + d[1..] == p + d;
      assert AllDigits(d) <==> AllDigits(d[1..]) by {
        if AllDigits(d[1..]) {
          forall i | 0 <= i < |d| ensures IsDigit(d[i]) {
            if i > 0 { assert d[i] == d[1..][i - 1]; }
          }
        }
      }
      if DecimalValue(p') <= U128_MAX {
        AccumulateMeaning(p', d[1..]);
      } else if AllDigits(d) {
        DecimalValueGrows(p', d[1..]);
      }
    }
  }

  /** The digit loop started at zero gives the decimal value of its input. */
  lemma AccumulateFromEmpty(d: string)
    ensures Accumulate(0, d) == if AllDigits(d) && DecimalValue(d) <= U128_MAX then Some(DecimalValue(d)) else None
  {
    AccumulateMeaning([], d);
    assert [] + d == d;
  }

  function DigitChar(k: nat): (c: char)
    requires k < 10
    ensures IsDigit(c) && DigitValue(c) == k
  {
    ('0' as int + k) as char
  }

  /** The canonical decimal spelling of an amount, as a client would write a price. */
  function ToDecimal(n: nat): (s: string)
    ensures |s| > 0 && AllDigits(s) && DecimalValue(s) == n
    ensures s[0] != '+'
  {
    if n < 10 then [DigitChar(n)]
    else
      var s := ToDecimal(n / 10) + [DigitChar(n % 10)];
      assert s[..|s| - 1] == ToDecimal(n / 10);
      s
  }

  /** Every amount written in decimal parses back to itself. */
  lemma ParseToDecimal(n: U128)
    ensures ParseU128(ToDecimal(n)) == Some(n)
  {
  }

  /**
   * Exactly one leading '+' is skipped: prefixing '+' to a string that is
   * empty or does not start with '+' leaves its parse unchanged.
   */
  lemma ParseSkipsPlus(d: string)
    requires d == [] || d[0] != '+'
    ensures ParseU128("+" + d) == ParseU128(d)
  {
    assert ("+" + d)[1..] == d;
  }
}
