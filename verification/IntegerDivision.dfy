/** Truncating division of natural numbers, for a unit and a scale of any size. */
module IntegerDivision {

  lemma DivBounds(n: nat, d: nat)
    requires d > 0
    ensures n / d * d <= n < n / d * d + d
    ensures n % d == n - n / d * d
  {
  }

  lemma DivUnique(n: nat, d: nat, q: nat)
    requires d > 0 && q * d <= n < q * d + d
    ensures n / d == q && n % d == n - q * d
  {
    DivBounds(n, d);
    var p := n / d;
    if p < q {
      MulLe(p + 1, q, d);
    } else if p > q {
      MulLe(q + 1, p, d);
    }
  }

  lemma MulLe(a: nat, b: nat, d: nat)
    requires a <= b
    ensures a * d <= b * d
  {
  }

  lemma MulLt(a: nat, b: nat, d: nat)
    requires a < b && d > 0
    ensures a * d < b * d
  {
  }

  lemma Distribute(a: int, b: int, c: int)
    ensures (a + b) * c == a * c + b * c
  {
  }

  lemma Associate(a: int, b: int, c: int)
    ensures a * b * c == a * (b * c) == a * c * b == b * (a * c)
  {
  }

  /** A common factor cancels. */
  lemma DivCancel(n: nat, d: nat, f: nat)
    requires d > 0 && f > 0
    ensures d * f > 0 && n * f / (d * f) == n / d
  {
    var q := n / d;
    DivBounds(n, d);
    MulLt(0, d, f);
    MulLe(q * d, n, f);
    MulLt(n, q * d + d, f);
    Associate(q, d, f);
    Distribute(q * d, d, f);
    DivUnique(n * f, d * f, q);
  }

  // ---------- Products of two-word numbers ----------

  /** The truncated product, from the products of the words. */
  lemma MulWords(x1: nat, x0: nat, y1: nat, y0: nat, one: nat)
    requires one > 0
    ensures (x1 * one + x0) * (y1 * one + y0) / one == x1 * y1 * one + x0 * y1 + x1 * y0 + x0 * y0 / one
  {
    Expand(x1, x0, y1, y0, one);
    Products(x1, x0, y1, y0);
    Products(x1 * y1, x1 * y1, one, one);
    LowWord(x1 * y1 * one + x0 * y1 + x1 * y0, x0 * y0, one);
  }

  lemma Products(x1: nat, x0: nat, y1: nat, y0: nat)
    ensures x1 * y1 >= 0 && x0 * y1 >= 0 && x1 * y0 >= 0 && x0 * y0 >= 0
  {
  }

  lemma LowWord(upper: nat, low: nat, one: nat)
    requires one > 0
    ensures (upper * one + low) / one == upper + low / one
  {
    DivBounds(low, one);
    Distribute(upper, low / one, one);
    DivUnique(upper * one + low, one, upper + low / one);
  }

  lemma Expand(x1: nat, x0: nat, y1: nat, y0: nat, one: nat)
    ensures (x1 * one + x0) * (y1 * one + y0) == (x1 * y1 * one + x0 * y1 + x1 * y0) * one + x0 * y0
  {
    var y := y1 * one + y0;
    Distribute(x1 * one, x0, y);
    assert x1 * one * y == x1 * y1 * one * one + x1 * y0 * one by {
      assert x1 * one * y == x1 * one * (y1 * one) + x1 * one * y0;
      Associate(x1 * one, y1, one);
      Associate(x1, one, y1);
      Associate(x1, one, y0);
    }
    assert x0 * y == x0 * y1 * one + x0 * y0 by { Associate(x0, y1, one); }
    Distribute(x1 * y1 * one + x0 * y1, x1 * y0, one);
    Distribute(x1 * y1 * one, x0 * y1, one);
  }

  // ---------- Division by a truncated ratio ----------

  /** The amount times the rate, split over the ratio. */
  lemma SplitProduct(d: nat, one: nat, r: nat, scale: nat, ratio: nat, lost: nat, q: nat, t: nat)
    requires r * one == ratio * scale + lost && d * scale == q * r + t
    ensures d * one * r == q * ratio * r + (t * ratio + d * lost)
  {
    Associate(d, one, r);
    Distribute(ratio * scale, lost, d);
    Associate(d, scale, ratio);
    Distribute(q * r, t, ratio);
    Associate(q, r, ratio);
  }

  lemma RestSmall(t: nat, r: nat, ratio: nat, rest: nat)
    requires t < r && rest < ratio
    ensures t * ratio + rest < r * ratio
  {
    MulLe(t + 1, r, ratio);
    Distribute(t, 1, ratio);
  }

  lemma Subtract(n: nat, base: nat, r: nat, rest: nat)
    requires n >= base && n * r == base * r + rest
    ensures (n - base) * r == rest
  {
  }

  lemma Between(n: nat, base: nat, width: nat, r: nat, rest: nat)
    requires r > 0 && n * r == base * r + rest && rest < r * width
    ensures base <= n < base + width
  {
    if n < base {
      MulLt(n, base, r);
    } else if n >= base + width {
      MulLe(base + width, n, r);
      Distribute(base, width, r);
    }
  }

  /** What is left of an amount after as many whole ratios as there are units in the true quotient. */
  lemma Leftover(d: nat, one: nat, r: nat, scale: nat, ratio: nat, lost: nat, q: nat, t: nat) returns (u: nat)
    requires r > 0 && d * scale < ratio && lost < scale
    requires r * one == ratio * scale + lost && d * scale == q * r + t && t < r
    ensures d * one == q * ratio + u && u < ratio && u * r == t * ratio + d * lost
  {
    SplitProduct(d, one, r, scale, ratio, lost, q, t);
    var rest := t * ratio + d * lost;
    MulLe(lost, scale, d);
    RestSmall(t, r, ratio, d * lost);
    Between(d * one, q * ratio, ratio, r, rest);
    u := d * one - q * ratio;
    Subtract(d * one, q * ratio, r, rest);
  }

  lemma SmallQuotient(u: nat, one: nat, ratio: nat)
    requires u < ratio && one > 0
    ensures u * one / ratio < one
    ensures u * one / ratio == 0 <==> u * one < ratio
  {
    var f := u * one / ratio;
    DivBounds(u * one, ratio);
    MulLt(u, ratio, one);
    if f >= one { MulLe(one, f, ratio); }
    if f > 0 { MulLe(1, f, ratio); }
  }

  lemma LongDivision(n: nat, one: nat, ratio: nat, q: nat, u: nat, f: nat)
    requires n == q * ratio + u && f * ratio <= u * one < f * ratio + ratio
    ensures (q * one + f) * ratio <= n * one < (q * one + f) * ratio + ratio
  {
    Distribute(q * ratio, u, one);
    Associate(q, ratio, one);
    Distribute(q * one, f, ratio);
  }

  /** The raw quotient: whole units, and a fraction that vanishes only when almost nothing is left over. */
  lemma RawQuotient(n: nat, one: nat, ratio: nat, q: nat, u: nat)
    requires one > 0 && n == q * ratio + u && u < ratio
    ensures n * one / ratio / one == q
    ensures n * one / ratio % one == 0 <==> u * one < ratio
  {
    var f := u * one / ratio;
    SmallQuotient(u, one, ratio);
    DivBounds(u * one, ratio);
    LongDivision(n, one, ratio, q, u, f);
    DivUnique(n * one, ratio, q * one + f);
    DivUnique(q * one + f, one, q);
  }

  /** The fraction vanishes exactly when the true division leaves nothing and truncation loses too little to show. */
  lemma FractionIff(t: nat, u: nat, one: nat, ratio: nat, r: nat, loss: nat)
    requires 0 < r <= one && ratio > 0 && u * r == t * ratio + loss
    ensures u * one < ratio <==> t == 0 && loss * one < ratio * r
  {
    Associate(u, r, one);
    if u * one < ratio { MulLt(u * one, ratio, r); } else { MulLe(ratio, u * one, r); }
    if t > 0 {
      MulLe(1, t, ratio);
      MulLe(ratio, u * r, one);
      MulLe(r, one, ratio);
    }
  }

  lemma DivideAt(d: nat, one: nat, r: nat, scale: nat, ratio: nat, lost: nat, q: nat, t: nat)
    requires 0 < r <= one && d * scale < ratio && lost < scale && r * one == ratio * scale + lost
    requires d * scale == q * r + t && t < r
    ensures d * one * one / ratio / one == q
    ensures d * one * one / ratio % one == 0 <==> t == 0 && d * lost * one < ratio * r
  {
    var u := Leftover(d, one, r, scale, ratio, lost, q, t);
    RawQuotient(d * one, one, ratio, q, u);
    FractionIff(t, u, one, ratio, r, d * lost);
  }

  /** Dividing by the truncated ratio, to a precision of one unit: the whole part is the true quotient's, and the
      fraction vanishes when the true division is exact and truncation loses too little to show. */
  lemma DivideByRatio(d: nat, one: nat, r: nat, scale: nat, ratio: nat, lost: nat)
    requires 0 < r <= one && 0 <= d * scale < ratio && lost < scale && r * one == ratio * scale + lost
    ensures d * one * one / ratio / one == d * scale / r
    ensures d * one * one / ratio % one == 0 <==> d * scale % r == 0 && d * lost * one < ratio * r
  {
    var q, t := Parts(d * scale, r);
    DivideAt(d, one, r, scale, ratio, lost, q, t);
  }

  /** The whole part of a division by the truncated ratio is the true quotient's exactly when what truncation loses
      does not make up for what is missing to the next one. */
  lemma WholeIff(d: nat, one: nat, r: nat, scale: nat, ratio: nat, lost: nat)
    requires r > 0 && one > 0 && ratio > 0 && r * one == ratio * scale + lost
    ensures d * one * one / ratio / one == d * scale / r <==> d * scale % r * ratio + d * lost < r * ratio
  {
    var q, t, n := d * scale / r, d * scale % r, d * one;
    Products(d, d, scale, one);
    Products(d, t, lost, ratio);
    DivBounds(d * scale, r);
    SplitProduct(d, one, r, scale, ratio, lost, q, t);
    DivBounds(n, ratio);
    RawQuotient(n, one, ratio, n / ratio, n % ratio);
    if t * ratio + d * lost < r * ratio {
      Between(n, q * ratio, ratio, r, t * ratio + d * lost);
      DivUnique(n, ratio, q);
    } else {
      Reaches(n, q * ratio, ratio, r, t * ratio + d * lost);
      if n / ratio <= q { MulLe(n / ratio, q, ratio); }
    }
  }

  lemma Reaches(n: nat, base: nat, width: nat, r: nat, rest: nat)
    requires n * r == base * r + rest && rest >= r * width
    ensures r > 0 ==> n >= base + width
  {
    if n < base + width && r > 0 {
      MulLt(n, base + width, r);
      Distribute(base, width, r);
    }
  }

  /** Multiplying by the truncated ratio: the whole part is the true product's, or one less exactly when what
      truncation loses is more than the true product's fraction. */
  lemma MultiplyByRatio(d: nat, one: nat, r: nat, scale: nat, ratio: nat, lost: nat)
    requires one > 0 && lost < scale && d <= one && r * one == ratio * scale + lost
    ensures var whole, short := d * r / scale, d * r % scale * one < d * lost;
            && (short ==> whole > 0)
            && d * ratio / one == if short then whole - 1 else whole
  {
    Products(d, d, r, ratio);
    var k, w := Parts(d * r, scale);
    MultiplyAt(d, one, r, scale, ratio, lost, k, w);
  }

  lemma Parts(n: nat, d: nat) returns (k: nat, w: nat)
    requires d > 0
    ensures n == k * d + w && w < d
    ensures k == n / d && w == n % d
  {
    DivBounds(n, d);
    k, w := n / d, n % d;
  }

  lemma MultiplyAt(d: nat, one: nat, r: nat, scale: nat, ratio: nat, lost: nat, k: nat, w: nat)
    requires one > 0 && lost < scale && d <= one && r * one == ratio * scale + lost
    requires d * r == k * scale + w && w < scale
    ensures w * one < d * lost ==> k > 0
    ensures d * ratio / one == if w * one < d * lost then k - 1 else k
  {
    Products(d, w, lost, one);
    Products(d, d, ratio, ratio);
    Scaled(d, one, r, scale, ratio, lost, k, w);
    LossSmall(d, one, scale, lost);
    MulLt(w, scale, one);
    Divided(d * ratio, one, scale, k, w * one, d * lost);
  }

  lemma Divided(n: nat, one: nat, scale: nat, k: nat, rest: nat, loss: nat)
    requires one > 0 && scale > 0 && n * scale + loss == k * one * scale + rest
    requires loss < one * scale && rest < one * scale
    ensures rest < loss ==> k > 0
    ensures n / one == if rest < loss then k - 1 else k
  {
    if rest < loss {
      OneLess(n, one, scale, k, loss - rest);
    } else {
      NoLess(n, one, scale, k, rest - loss);
    }
  }

  lemma OneLess(n: nat, one: nat, scale: nat, k: nat, short: nat)
    requires one > 0 && scale > 0 && n * scale + short == k * one * scale && 0 < short <= one * scale
    ensures k > 0 && n / one == k - 1
  {
    Whole(k, one, scale, n, short);
    Distribute(k - 1, 1, one);
    var base := (k - 1) * one;
    Products(k - 1, k - 1, one, one);
    Distribute(base, one, scale);
    Between(n, base, one, scale, one * scale - short);
    DivUnique(n, one, k - 1);
  }

  lemma NoLess(n: nat, one: nat, scale: nat, k: nat, extra: nat)
    requires one > 0 && scale > 0 && n * scale == k * one * scale + extra && extra < one * scale
    ensures n / one == k
  {
    Products(k, k, one, one);
    Between(n, k * one, one, scale, extra);
    DivUnique(n, one, k);
  }

  lemma LossSmall(d: nat, one: nat, scale: nat, lost: nat)
    requires lost < scale && d <= one && one > 0
    ensures d * lost < one * scale
  {
    MulLe(d, one, lost);
    MulLt(lost, scale, one);
  }

  lemma Whole(k: nat, one: nat, scale: nat, n: nat, short: nat)
    requires n * scale + short == k * one * scale && short > 0
    ensures k > 0
  {
    if k == 0 { Products(n, n, scale, scale); }
  }

  lemma Scaled(d: nat, one: nat, r: nat, scale: nat, ratio: nat, lost: nat, k: nat, w: nat)
    requires r * one == ratio * scale + lost && d * r == k * scale + w
    ensures d * ratio * scale + d * lost == k * one * scale + w * one
  {
    Associate(d, r, one);
    Distribute(ratio * scale, lost, d);
    Associate(d, ratio, scale);
    Distribute(k * scale, w, one);
    Associate(k, scale, one);
  }
}
