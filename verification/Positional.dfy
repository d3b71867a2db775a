/** Fixed-width positional notation, most significant digit first, in any base above one. */
module Positional {

  function Pow(base: nat, exponent: nat): nat {
    if exponent == 0 then 1 else base * Pow(base, exponent - 1)
  }

  ghost predicate AreDigits(digits: seq<int>, base: int) {
    forall i :: 0 <= i < |digits| ==> 0 <= digits[i] < base
  }

  lemma MulLeft(a: int, b: int, c: int)
    requires a <= b && 0 <= c
    ensures a * c <= b * c
  {
  }

  lemma Quotient(n: nat, base: int)
    requires base > 1
    ensures 0 <= n / base && 0 <= n % base < base && n == n / base * base + n % base
  {
  }

  /** Horner evaluation, one digit at a time from the left. */
  function FromDigits(digits: seq<int>, base: int): int {
    if digits == [] then 0
    else FromDigits(digits[..|digits| - 1], base) * base + digits[|digits| - 1]
  }

  /** The `width` low-order digits of `n`, left-padded with zeros. */
  function ToDigits(n: nat, base: int, width: nat): (digits: seq<int>)
    requires base > 1
    ensures |digits| == width && AreDigits(digits, base)
    decreases width
  {
    if width == 0 then []
    else
      Quotient(n, base);
      ToDigits(n / base, base, width - 1) + [n % base]
  }

  lemma QuotientBelow(n: nat, base: int, bound: nat)
    requires base > 1 && n < base * bound
    ensures n / base < bound
  {
    if bound <= n / base {
      MulLeft(bound, n / base, base);
    }
  }

  /** `width` digits denote a number below base^width. */
  lemma {:induction false} FromDigitsBound(digits: seq<int>, base: int)
    requires base > 1 && AreDigits(digits, base)
    ensures 0 <= FromDigits(digits, base) < Pow(base, |digits|)
  {
    if digits != [] {
      var rest, last := digits[..|digits| - 1], digits[|digits| - 1];
      FromDigitsBound(rest, base);
      MulLeft(FromDigits(rest, base) + 1, Pow(base, |rest|), base);
      MulLeft(0, FromDigits(rest, base), base);
      assert (FromDigits(rest, base) + 1) * base == FromDigits(rest, base) * base + base;
    }
  }

  /** Writing a number that fits and reading it back gives the number. */
  lemma {:induction false} WriteThenRead(n: nat, base: int, width: nat)
    requires base > 1 && n < Pow(base, width)
    ensures FromDigits(ToDigits(n, base, width), base) == n
    decreases width
  {
    if width > 0 {
      Quotient(n, base);
      QuotientBelow(n, base, Pow(base, width - 1));
      WriteThenRead(n / base, base, width - 1);
      var digits := ToDigits(n, base, width);
      assert digits[..width - 1] == ToDigits(n / base, base, width - 1);
    }
  }

  lemma DivModOfSum(q: nat, base: int, r: int)
    requires 0 <= r < base
    ensures (q * base + r) / base == q && (q * base + r) % base == r
  {
    var n := q * base + r;
    var d := n / base - q;
    assert n == base * (n / base) + n % base;
    assert d * base == r - n % base;
    if d > 0 { MulLeft(1, d, base); }
    if d < 0 { MulLeft(d, -1, base); }
  }

  /** Reading digits and writing the number back at the same width gives the digits. */
  lemma {:induction false} ReadThenWrite(digits: seq<int>, base: int)
    requires base > 1 && AreDigits(digits, base)
    ensures 0 <= FromDigits(digits, base)
    ensures ToDigits(FromDigits(digits, base), base, |digits|) == digits
  {
    FromDigitsBound(digits, base);
    if digits != [] {
      var rest, last := digits[..|digits| - 1], digits[|digits| - 1];
      ReadThenWrite(rest, base);
      DivModOfSum(FromDigits(rest, base), base, last);
    }
  }
}
