/** `u64::from_str_radix(s, 16)`, the parser the process-map reader applies
    to each address column. */
module Hex {
  import opened Base
  import opened Foreign

  /** `char::to_digit(16)`: 0-9, a-f and A-F. */
  function HexDigit(c: char): (r: Option<nat>)
    ensures r.Some? ==> r.value < 16
  {
    if '0' <= c <= '9' then Some(c as int - '0' as int)
    else if 'a' <= c <= 'f' then Some(c as int - 'a' as int + 10)
    else if 'A' <= c <= 'F' then Some(c as int - 'A' as int + 10)
    else None
  }

  predicate IsHexDigits(s: string) {
    forall i :: 0 <= i < |s| ==> HexDigit(s[i]).Some?
  }

  function Pow16(n: nat): (r: nat)
    ensures r >= 1
  {
    if n == 0 then 1 else 16 * Pow16(n - 1)
  }

  lemma HexDigitsTail(s: string)
    requires |s| > 0
    ensures IsHexDigits(s) <==> HexDigit(s[0]).Some? && IsHexDigits(s[1..])
  {
    assert forall i :: 0 < i < |s| ==> s[i] == s[1..][i - 1];
  }

  /** A leading digit times the weight of its position, plus anything
      below that weight, stays below the next power. */
  lemma DigitBound(d: nat, p: nat, rest: nat)
    requires d < 16 && rest < p
    ensures d * p + rest < 16 * p
  {
    assert (d + 1) * p == d * p + p;
    assert (d + 1) * p <= 16 * p by {
      MulMonotone(d + 1, 16, p);
    }
  }

  lemma MulMonotone(a: nat, b: nat, p: nat)
    requires a <= b
    ensures a * p <= b * p
  {
    assert b * p == a * p + (b - a) * p;
  }

  /** The number a string of hexadecimal digits denotes, most significant first. */
  function HexValue(s: string): (v: nat)
    requires IsHexDigits(s)
    ensures v < Pow16(|s|)
  {
    if |s| == 0 then 0
    else
      HexDigitsTail(s);
      var rest := HexValue(s[1..]);
      var d := HexDigit(s[0]).value;
      DigitBound(d, Pow16(|s| - 1), rest);
      d * Pow16(|s| - 1) + rest
  }

  /** The digit loop of `from_str_radix`: left to right, multiply by 16
      and add the next digit; an invalid character at a position is
      reported before an overflow at that position. */
  function Accumulate(acc: U64, ds: string): (r: Result<U64, ParseIntError>)
    ensures r.Ok? <==> IsHexDigits(ds) && acc * Pow16(|ds|) + HexValue(ds) < TWO_64
    ensures r.Ok? ==> r.value == acc * Pow16(|ds|) + HexValue(ds)
    ensures r.Err? ==> r.error.kind != Empty
    decreases |ds|
  {
    if |ds| == 0 then Ok(acc)
    else match HexDigit(ds[0])
      case None => Err(ParseIntError(InvalidDigit))
      case Some(d) =>
        var next := acc * 16 + d;
        AccumulateStep(acc, d, ds);
        if next >= TWO_64 then Err(ParseIntError(PosOverflow))
        else Accumulate(next, ds[1..])
  }

  /** One step of the digit loop, in arithmetic terms. */
  lemma AccumulateStep(acc: nat, d: nat, ds: string)
    requires |ds| > 0 && HexDigit(ds[0]) == Some(d)
    ensures IsHexDigits(ds) <==> IsHexDigits(ds[1..])
    ensures IsHexDigits(ds) ==>
      acc * Pow16(|ds|) + HexValue(ds) == (acc * 16 + d) * Pow16(|ds| - 1) + HexValue(ds[1..])
    ensures IsHexDigits(ds) ==> acc * 16 + d <= acc * Pow16(|ds|) + HexValue(ds)
  {
    HexDigitsTail(ds);
    if IsHexDigits(ds) {
      var p := Pow16(|ds| - 1);
      assert Pow16(|ds|) == 16 * p;
      assert HexValue(ds) == d * p + HexValue(ds[1..]);
      StepArith(acc, d, p, HexValue(ds[1..]));
    }
  }

  lemma StepArith(acc: nat, d: nat, p: nat, rest: nat)
    requires p >= 1
    ensures acc * (16 * p) + (d * p + rest) == (acc * 16 + d) * p + rest
    ensures acc * 16 + d <= acc * (16 * p) + (d * p + rest)
  {
    var n := acc * 16 + d;
    assert acc * (16 * p) == (acc * 16) * p;
    assert n * p == (acc * 16) * p + d * p;
    MulMonotone(1, p, n);
    assert p * n == n * p;
  }

  /** The digits `from_str_radix` reads: the input without one leading '+'. */
  function Digits(s: string): string {
    if |s| > 0 && s[0] == '+' then s[1..] else s
  }

  /** Rust `u64::from_str_radix(s, 16)`. An empty input is `Empty`; a lone
      sign is `InvalidDigit`; one leading '+' is skipped; a '-' is an
      invalid digit for an unsigned type. */
  function FromStrRadix16(s: string): (r: Result<U64, ParseIntError>)
    ensures r.Ok? <==> |Digits(s)| > 0 && IsHexDigits(Digits(s)) && HexValue(Digits(s)) < TWO_64
    ensures r.Ok? ==> r.value == HexValue(Digits(s)) && r.value < Pow16(|s|)
    ensures r.Err? ==> (r.error.kind == Empty <==> |s| == 0)
  {
    if |s| == 0 then Err(ParseIntError(Empty))
    else if (s[0] == '+' || s[0] == '-') && |s| == 1 then
      assert HexDigit(s[0]).None?;
      Err(ParseIntError(InvalidDigit))
    else
      PowMonotone(|Digits(s)|, |s|);
      Accumulate(0, Digits(s))
  }

  lemma {:induction false} PowMonotone(m: nat, n: nat)
    requires m <= n
    ensures Pow16(m) <= Pow16(n)
    decreases n
  {
    if m < n {
      PowMonotone(m, n - 1);
    }
  }
}
