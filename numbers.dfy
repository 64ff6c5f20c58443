/**
 * Decimal numbers as text: Rust's `u16::from_str` (digits with an optional
 * leading `+`, at most 65535) and `Display` for integers (no padding, a
 * leading `-` for negative values).
 */
module Numbers {
  import opened Wrappers
  import opened Ascii

  const U16_MAX: nat := 0xFFFF

  type U16 = n: nat | n <= U16_MAX

  predicate IsDigit(c: char)
  {
    '0' <= c <= '9'
  }

  predicate AllDigits(s: string)
  {
    forall i | 0 <= i < |s| :: IsDigit(s[i])
  }

  function DigitValue(c: char): (d: nat)
    requires IsDigit(c)
    ensures d < 10
  {
    c as int - '0' as int
  }

  function DigitChar(d: nat): (c: char)
    requires d < 10
    ensures IsDigit(c) && DigitValue(c) == d
  {
    ('0' as int + d) as char
  }

  /** The value of a string of decimal digits, read left to right. */
  function DigitsValue(s: string): nat
    requires AllDigits(s)
  {
    if s == [] then 0 else 10 * DigitsValue(s[..|s| - 1]) + DigitValue(s[|s| - 1])
  }

  function Pow10(k: nat): (p: nat)
    ensures p >= 1
  {
    if k == 0 then 1 else 10 * Pow10(k - 1)
  }

  /** Rust's `str::parse::<u16>`: an optional `+`, then one or more decimal
      digits whose value fits in 16 bits. */
  function ParseU16(s: string): Option<U16>
  {
    var digits := if |s| > 0 && s[0] == '+' then s[1..] else s;
    if digits == [] || !AllDigits(digits) then None
    else if DigitsValue(digits) <= U16_MAX then Some(DigitsValue(digits))
    else None
  }

  /** `n` printed in decimal, without padding. */
  function Decimal(n: nat): (r: string)
    ensures r != [] && AllDigits(r)
  {
    if n < 10 then [DigitChar(n)] else Decimal(n / 10) + [DigitChar(n % 10)]
  }

  /** A signed integer printed in decimal. */
  function SignedDecimal(i: int): (r: string)
  {
    if i < 0 then "-" + Decimal(-i) else Decimal(i)
  }

  /** Reading a printed number gives the number back. */
  lemma {:induction false} DecimalValue(n: nat)
    ensures DigitsValue(Decimal(n)) == n
  {
    if n >= 10 {
      var s := Decimal(n);
      DecimalValue(n / 10);
      assert s[..|s| - 1] == Decimal(n / 10);
    }
  }

  /** Printed numbers have no leading zero, so distinct numbers print differently. */
  lemma {:induction false} DecimalCanonical(n: nat)
    ensures Decimal(n)[0] == '0' <==> n == 0
  {
    if n >= 10 {
      DecimalCanonical(n / 10);
    }
  }

  lemma DecimalInjective(a: nat, b: nat)
    ensures Decimal(a) == Decimal(b) <==> a == b
  {
    DecimalValue(a);
    DecimalValue(b);
  }

  /** Printing with k digits happens exactly for numbers in [10^(k-1), 10^k). */
  lemma {:induction false} DecimalLength(n: nat, k: nat)
    requires k >= 1 && Pow10(k - 1) <= n < Pow10(k)
    ensures |Decimal(n)| == k
  {
    if k > 1 {
      assert n >= 10;
      DecimalLength(n / 10, k - 1);
    } else {
      assert n < 10;
    }
  }

  lemma {:induction false} DigitsValueBound(s: string)
    requires AllDigits(s)
    ensures DigitsValue(s) < Pow10(|s|)
  {
    if s != [] {
      DigitsValueBound(s[..|s| - 1]);
    }
  }

  /** A parsed value has fewer digits than the text that spelled it. */
  lemma ParseU16Bound(s: string)
    requires ParseU16(s).Some?
    ensures ParseU16(s).value < Pow10(|s|)
  {
    var digits := if |s| > 0 && s[0] == '+' then s[1..] else s;
    DigitsValueBound(digits);
    PowMonotone(|digits|, |s|);
  }

  lemma {:induction false} PowMonotone(j: nat, k: nat)
    requires j <= k
    ensures Pow10(j) <= Pow10(k)
  {
    if j < k {
      PowMonotone(j, k - 1);
    }
  }

  /** Printing a 16-bit value and parsing it back is the identity. */
  lemma ParseU16Decimal(v: U16)
    ensures ParseU16(Decimal(v)) == Some(v)
  {
    DecimalValue(v);
  }

  /** The parse fails whenever the text ends in anything but a digit. */
  lemma ParseU16NonDigitEnd(s: string)
    requires s != [] && !IsDigit(s[|s| - 1])
    ensures ParseU16(s) == None
  {
    var digits := if s[0] == '+' then s[1..] else s;
    if digits != [] {
      assert digits[|digits| - 1] == s[|s| - 1];
    }
  }

  /** Text that parses as a number has no letters to lower-case. */
  lemma ParseU16Unaffected(s: string)
    requires ParseU16(s).Some?
    ensures Lower(s) == s
  {
    var digits := if s[0] == '+' then s[1..] else s;
    assert forall i | 0 <= i < |s| :: s[i] == '+' || IsDigit(s[i]) by {
      forall i | 0 <= i < |s|
        ensures s[i] == '+' || IsDigit(s[i])
      {
        if s[0] == '+' && i > 0 {
          assert s[i] == digits[i - 1];
        }
      }
    }
  }

  /** Lower-casing does not change what parses as a number. */
  lemma ParseU16Lower(s: string)
    ensures ParseU16(Lower(s)) == ParseU16(s)
  {
    var l := Lower(s);
    var digits := if |s| > 0 && s[0] == '+' then s[1..] else s;
    var ldigits := if |l| > 0 && l[0] == '+' then l[1..] else l;
    assert |s| > 0 ==> (l[0] == '+' <==> s[0] == '+');
    assert ldigits == Lower(digits);
    assert forall i | 0 <= i < |digits| :: IsDigit(ldigits[i]) <==> IsDigit(digits[i]);
    if AllDigits(digits) {
      assert ldigits == digits;
    }
  }
}
