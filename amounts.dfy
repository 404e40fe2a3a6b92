/** Amounts of money. The program keeps them as Python floats; the model keeps
    them exactly, as whole cents, which is what the two-decimal rendering
    `f"{amount:.2f}"` shows. */
module Amounts {
  import opened Wrappers
  import opened Text

  /** Cents denoted by the digits `whole` and `frac` of `whole.frac`; digits after
      the second fractional one round to the nearest cent, ties to even. */
  function ToCents(whole: string, frac: string): (c: nat)
    requires AllDigits(whole) && AllDigits(frac)
    ensures |frac| <= 2 ==> c == DigitsToNat(whole) * 100 + DigitsToNat((frac + "00")[..2])
  {
    var padded := frac + "00";
    assert AllDigits(padded[..2]) by {
      forall i | 0 <= i < 2 ensures IsDigit(padded[i]) {
        if i >= |frac| { assert padded[i] == '0'; }
      }
    }
    var base := DigitsToNat(whole) * 100 + DigitsToNat(padded[..2]);
    if |frac| <= 2 then base
    else
      var tail := frac[2..];
      var t := DigitsToNat(tail);
      var half := 5 * Pow10(|tail| - 1);
      if t > half || (t == half && base % 2 == 1) then base + 1 else base
  }

  /** The unsigned part of a decimal: digits, and an optional point followed by
      digits, with at least one digit in all. */
  function ParseUnsigned(body: string): (r: Option<nat>)
  {
    var k := IndexOf(body, '.');
    var whole := body[..k];
    var frac := if k < |body| then body[k + 1..] else [];
    if AllDigits(whole) && AllDigits(frac) && |whole| + |frac| > 0 then Some(ToCents(whole, frac))
    else None
  }

  /** `float(s)` on a plain decimal: an optional sign before the unsigned part.
      None stands for the ValueError that float() raises. */
  function ParseAmount(s: string): (r: Option<int>)
    ensures r.Some? ==> |s| > 0
    ensures r.Some? && r.value < 0 ==> s[0] == '-'
  {
    if s == [] then None
    else
      var body := if s[0] == '+' || s[0] == '-' then s[1..] else s;
      match ParseUnsigned(body)
      case None => None
      case Some(c) => Some(if s[0] == '-' then -(c as int) else c)
  }

  /** Whole units, a point and exactly two digits of cents. */
  function RenderUnsigned(n: nat): (s: string)
    ensures |s| >= 4 && IsDigit(s[0]) && s[|s| - 3] == '.' && AllDigits(s[|s| - 2..])
  {
    var body := NatToDigits(n / 100) + "." + PadDigits(n % 100, 2);
    assert body[|body| - 2..] == PadDigits(n % 100, 2);
    body
  }

  /** `f"{amount:.2f}"`: a minus sign for negative amounts, then the unsigned rendering. */
  function FormatCents(c: int): (s: string)
    ensures |s| >= 4 && s[|s| - 3] == '.' && AllDigits(s[|s| - 2..])
    ensures s[0] == '-' <==> c < 0
  {
    if c < 0 then "-" + RenderUnsigned(-c) else RenderUnsigned(c)
  }

  lemma UnsignedRoundTrip(n: nat)
    ensures ParseUnsigned(RenderUnsigned(n)) == Some(n)
  {
    var w, f := NatToDigits(n / 100), PadDigits(n % 100, 2);
    var body := RenderUnsigned(n);
    assert body == w + ['.'] + f;
    NonDigitNotIn(w, '.');
    IndexOfSeparator(w, '.', f);
    assert body[..|w|] == w && body[|w| + 1..] == f;
    assert Pow10(2) == 100;
    NatToDigitsRoundTrip(n / 100);
    PadDigitsRoundTrip(n % 100, 2);
    assert (f + "00")[..2] == f;
  }

  /** Rendering an amount to two decimals and reading it back with float() gives
      the amount again: the exported Amount column loses nothing. */
  lemma AmountRoundTrip(c: int)
    ensures ParseAmount(FormatCents(c)) == Some(c)
  {
    var n := if c < 0 then -c else c;
    UnsignedRoundTrip(n);
    var s := FormatCents(c);
    if c < 0 {
      assert s[1..] == RenderUnsigned(n);
    }
  }
}
