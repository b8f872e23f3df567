/** Unsigned 128.128 fixed-point numbers, and how truncated division by a truncated ratio rounds. */
module FixedPoint {
  import opened Prelude
  import opened IntegerDivision

  /** Two to the 128: one, as a raw value. */
  const ONE: nat := 0x1_0000_0000_0000_0000_0000_0000_0000_0000

  datatype Error = Overflow | DivisionByZero | NonIntegral

  /** `raw` is the number times two to the 128. */
  datatype Fixed = Fixed(raw: nat)
  {
    function Integral(): nat {
      raw / ONE
    }

    function Fractional(): nat {
      raw % ONE
    }
  }

  function FromInt(n: nat): Fixed {
    Fixed(n * ONE)
  }

  /** Results are kept only if they fit 256 bits. */
  function Checked(raw: nat): Result<Fixed, Error> {
    if raw < ONE * ONE then Ok(Fixed(raw)) else Err(Overflow)
  }

  function Div(x: Fixed, y: Fixed): Result<Fixed, Error> {
    if y.raw == 0 then Err(DivisionByZero) else Checked(x.raw * ONE / y.raw)
  }

  /** The product, with its last 128 bits dropped. */
  function Mul(x: Fixed, y: Fixed): Result<Fixed, Error> {
    Checked(x.raw * y.raw / ONE)
  }

  /** Word by word, as it is computed: only the lowest partial product loses bits. */
  function MulByWords(x: Fixed, y: Fixed): Result<Fixed, Error> {
    var high := x.Integral() * y.Integral();
    if high / ONE != 0 then Err(Overflow)
    else
      var acc := Checked(high * ONE + x.Fractional() * y.Integral());
      if acc.Err? then acc
      else
        var acc' := Checked(acc.value.raw + x.Integral() * y.Fractional());
        if acc'.Err? then acc' else Checked(acc'.value.raw + x.Fractional() * y.Fractional() / ONE)
  }

  function RoundDown(x: Fixed): Fixed {
    Fixed(x.Integral() * ONE)
  }

  function RoundUp(x: Fixed): Result<Fixed, Error> {
    if x.Fractional() == 0 then Ok(x)
    else if x.Integral() + 1 < ONE then Ok(Fixed((x.Integral() + 1) * ONE))
    else Err(Overflow)
  }

  /** Conversion to an integer type with values below the bound. */
  function ToInt(x: Fixed, bound: nat): Result<nat, Error> {
    if x.Fractional() != 0 then Err(NonIntegral)
    else if x.Integral() < bound then Ok(x.Integral())
    else Err(Overflow)
  }

  // ---------- Exactness ----------

  /** The word-by-word product is the truncated product, and it overflows exactly when that does not fit. */
  lemma MulExact(x: Fixed, y: Fixed)
    ensures MulByWords(x, y) == Mul(x, y)
  {
    var x1, x0, y1, y0 := x.Integral(), x.Fractional(), y.Integral(), y.Fractional();
    MulWords(x1, x0, y1, y0, ONE);
    Words(x);
    Words(y);
    var high := x1 * y1;
    Products(x1, x0, y1, y0);
    DivBounds(high, ONE);
  }

  lemma Words(x: Fixed)
    ensures x.raw == x.Integral() * ONE + x.Fractional()
  {
  }

  /** The ratio of an integer to a scale, and what truncation loses of it. */
  function Ratio(r: nat, scale: nat): nat
    requires scale > 0
  {
    r * ONE / scale
  }

  function Lost(r: nat, scale: nat): nat
    requires scale > 0
  {
    r * ONE % scale
  }

  lemma RatioParts(r: nat, scale: nat)
    requires scale > 0
    ensures r * ONE == Ratio(r, scale) * scale + Lost(r, scale)
    ensures Lost(r, scale) < scale
  {
    DivBounds(r * ONE, scale);
  }

  lemma DivIsRatio(r: nat, scale: nat)
    requires scale > 0
    ensures Div(FromInt(r), FromInt(scale)) == Checked(Ratio(r, scale))
  {
    DivCancel(r * ONE, scale, ONE);
  }

  /** An integer divided by a truncated ratio has the whole part of the true quotient. Its fraction vanishes when the
      true division is exact and truncation loses too little to show. */
  lemma DivByRatio(d: nat, r: nat, scale: nat)
    requires 0 < r <= ONE && scale > 0 && d * scale < Ratio(r, scale)
    ensures var x := Fixed(d * ONE * ONE / Ratio(r, scale));
            && x.Integral() == d * scale / r
            && (x.Fractional() == 0 <==>
                  d * scale % r == 0 && d * Lost(r, scale) * ONE < Ratio(r, scale) * r)
  {
    hide Ratio, Lost;
    RatioParts(r, scale);
    Products(d, d, scale, scale);
    DivideByRatio(d, ONE, r, scale, Ratio(r, scale), Lost(r, scale));
  }

  /** For any integer and any truncated ratio that is not zero, the whole part is the true quotient exactly when what
      truncation loses does not make up for what is missing to the next one. */
  lemma DivByRatioIff(d: nat, r: nat, scale: nat)
    requires r > 0 && scale > 0 && Ratio(r, scale) > 0
    ensures Fixed(d * ONE * ONE / Ratio(r, scale)).Integral() == d * scale / r
            <==> d * scale % r * Ratio(r, scale) + d * Lost(r, scale) < r * Ratio(r, scale)
  {
    hide Ratio, Lost;
    RatioParts(r, scale);
    WholeIff(d, ONE, r, scale, Ratio(r, scale), Lost(r, scale));
  }

  /** An integer multiplied by a truncated ratio, rounded down. */
  lemma MulByRatio(d: nat, r: nat, scale: nat)
    requires scale > 0 && d <= ONE
    ensures var whole, short := d * r / scale, d * r % scale * ONE < d * Lost(r, scale);
            && (short ==> whole > 0)
            && d * Ratio(r, scale) / ONE == if short then whole - 1 else whole
  {
    hide Ratio, Lost;
    RatioParts(r, scale);
    MultiplyByRatio(d, ONE, r, scale, Ratio(r, scale), Lost(r, scale));
  }

  /** Multiplying by an integer loses nothing. */
  lemma MulInt(n: nat, y: Fixed)
    ensures Mul(FromInt(n), y) == Checked(n * y.raw)
  {
    Associate(n, ONE, y.raw);
    Products(n, n, y.raw, y.raw);
    DivUnique(n * y.raw * ONE, ONE, n * y.raw);
  }

  /** Rounding and converting, once the whole part and the fraction are known. */
  lemma Rounded(x: Fixed, bound: nat)
    requires x.Integral() + 1 < ONE
    ensures ToInt(RoundDown(x), bound) == if x.Integral() < bound then Ok(x.Integral()) else Err(Overflow)
    ensures RoundUp(x).Ok?
    ensures var up := if x.Fractional() == 0 then x.Integral() else x.Integral() + 1;
            ToInt(RoundUp(x).value, bound) == if up < bound then Ok(up) else Err(Overflow)
  {
  }
}
