/** The supply delegated to one validator: delegation tokens, the native tokens behind them, and their exchange rate. */
module DelegatedSupply {
  import opened Prelude
  import opened IntegerDivision
  import opened FixedPoint

  const BPS_SQUARED: nat := 1_0000_0000
  const U64: nat := 0x1_0000_0000_0000_0000
  const I64: nat := 0x8000_0000_0000_0000

  datatype Supply = Supply(um: nat, delUm: nat, rateBps2: nat)
  {
    /** Every field is an unsigned 64-bit integer. */
    predicate Valid() {
      um < U64 && delUm < U64 && rateBps2 < U64
    }
  }

  const DEFAULT := Supply(0, 0, BPS_SQUARED)

  /** An operation reports a failure, or a failed `expect` ends the process. */
  datatype Failure = Failed(reason: string) | Panicked

  // ---------- Operations ----------

  /** Native tokens to delegation tokens: removing rounds up, adding rounds down. */
  function DelUmDelta(rate: nat, delta: nat, negate: bool): Result<nat, Error> {
    var ratio := Div(FromInt(rate), FromInt(BPS_SQUARED));
    if ratio.Err? then Err(ratio.error)
    else if ratio.value == FromInt(0) then Ok(0)
    else
      var quotient := Div(FromInt(delta), ratio.value);
      if quotient.Err? then Err(quotient.error)
      else
        var rounded := if negate then RoundUp(quotient.value) else Ok(RoundDown(quotient.value));
        if rounded.Err? then Err(rounded.error) else ToInt(rounded.value, U64)
  }

  /** Change the amount of native tokens, by a signed 64-bit integer. */
  function AddUm(s: Supply, delta: int): Result<Supply, Failure> {
    var negate := delta < 0;
    var umDelta: nat := if negate then -delta else delta;
    var delUmDelta := DelUmDelta(s.rateBps2, umDelta, negate);
    if delUmDelta.Err? then Err(Failed("conversion failed"))
    else
      var (um, delUm) := if negate then (s.um - umDelta, s.delUm - delUmDelta.value)
                         else (s.um + umDelta, s.delUm + delUmDelta.value);
      if 0 <= um < U64 && 0 <= delUm < U64 then Ok(Supply(um, delUm, s.rateBps2))
      else Err(Failed("supply modification failed"))
  }

  /** What delegation tokens are worth. The ratio is truncated before it is multiplied, and a product that is too large
      is a failed `expect`. */
  function UnbondedAmount(rate: nat, delUm: nat): Result<nat, Failure> {
    var ratio := Div(FromInt(rate), FromInt(BPS_SQUARED));
    if ratio.Err? then Err(Panicked)
    else
      var amount := Mul(FromInt(delUm), ratio.value);
      if amount.Err? then Err(Panicked)
      else
        var worth := ToInt(RoundDown(amount.value), ONE);
        if worth.Err? then Err(Panicked) else Ok(worth.value)
  }

  /** Revalue at a new rate, an unsigned 128-bit integer. */
  function ChangeRate(s: Supply, rate: nat): Result<Supply, Failure> {
    var um := UnbondedAmount(rate, s.delUm);
    if um.Err? then Err(um.error)
    else if um.value >= U64 || rate >= U64 then Err(Failed("out of range"))
    else Ok(Supply(um.value, s.delUm, rate))
  }

  // ---------- Rounding is exact ----------

  function Ceiling(n: nat, d: nat): nat
    requires d > 0
  {
    if n % d == 0 then n / d else n / d + 1
  }

  /** The division is exact, but truncating the ratio has lost enough for the quotient to have a fraction. */
  predicate RoundsOver(rate: nat, delta: nat)
    requires rate > 0
  {
    delta * BPS_SQUARED % rate == 0 && delta * Lost(rate, BPS_SQUARED) * ONE >= Ratio(rate, BPS_SQUARED) * rate
  }

  function Fits(n: nat): Result<nat, Error> {
    if n < U64 then Ok(n) else Err(Overflow)
  }

  lemma RatioLarge(rate: nat, delta: nat)
    requires 0 < rate && delta <= I64
    ensures delta * BPS_SQUARED < Ratio(rate, BPS_SQUARED)
  {
    MulLe(1, rate, ONE);
    DivBounds(rate * ONE, BPS_SQUARED);
  }

  /** For every signed 64-bit change and every nonzero rate, rounding down the division by the truncated ratio is
      rounding down the true quotient. Rounding up is the true ceiling, or one more exactly when it rounds over. */
  lemma DelUmDeltaExact(rate: nat, delta: nat)
    requires 0 < rate < U64 && delta <= I64
    ensures DelUmDelta(rate, delta, false) == Fits(delta * BPS_SQUARED / rate)
    ensures DelUmDelta(rate, delta, true)
            == Fits(Ceiling(delta * BPS_SQUARED, rate) + (if RoundsOver(rate, delta) then 1 else 0))
  {
    hide Ratio, Lost;
    var ratio := Ratio(rate, BPS_SQUARED);
    DivIsRatio(rate, BPS_SQUARED);
    RatioParts(rate, BPS_SQUARED);
    RatioLarge(rate, delta);
    RatioFits(ratio, rate);
    QuotientFits(delta, ratio);
    DivByRatio(delta, rate, BPS_SQUARED);
    IntegralSmall(delta, rate);
    Rounded(Fixed(delta * ONE * ONE / ratio), U64);
  }

  lemma RatioFits(ratio: nat, rate: nat)
    requires ratio * BPS_SQUARED <= rate * ONE && rate < ONE
    ensures ratio < ONE * ONE
  {
    MulLt(rate, ONE, ONE);
    MulLe(1, BPS_SQUARED, ratio);
  }

  lemma QuotientFits(delta: nat, ratio: nat)
    requires delta * BPS_SQUARED < ratio
    ensures delta * ONE * ONE / ratio < ONE * ONE
  {
    var n := delta * ONE * ONE;
    DivBounds(n, ratio);
    MulLt(delta, ratio, ONE * ONE);
    if n / ratio >= ONE * ONE {
      MulLe(ONE * ONE, n / ratio, ratio);
    }
  }

  lemma IntegralSmall(delta: nat, rate: nat)
    requires rate > 0 && delta <= I64
    ensures delta * BPS_SQUARED / rate + 1 < ONE
  {
    var q := delta * BPS_SQUARED / rate;
    DivBounds(delta * BPS_SQUARED, rate);
    MulLe(1, rate, q);
  }

  /** Removing one unit at the smallest rate takes one delegation token more than the ceiling. */
  lemma RoundsOverOnce()
    ensures RoundsOver(1, 1)
    ensures Ceiling(1 * BPS_SQUARED, 1) == BPS_SQUARED && DelUmDelta(1, 1, true) == Ok(BPS_SQUARED + 1)
  {
    DelUmDeltaExact(1, 1);
  }

  /** The delegation tokens that come with a change of native tokens: none at rate zero. */
  function TokensMoved(rate: nat, delta: int): int {
    if rate == 0 then 0
    else if delta < 0 then
      var n: nat := -delta;
      -(Ceiling(n * BPS_SQUARED, rate) + if RoundsOver(rate, n) then 1 else 0)
    else
      delta * BPS_SQUARED / rate
  }

  /** A whole change of the supply, for every signed 64-bit change and every rate. */
  lemma AddUmExact(s: Supply, delta: int)
    requires s.Valid() && -(I64 as int) <= delta < I64
    ensures var moved := TokensMoved(s.rateBps2, delta);
            && (AddUm(s, delta).Ok? <==>
                  -(U64 as int) < moved < U64 && 0 <= s.um + delta < U64 && 0 <= s.delUm + moved < U64)
            && (AddUm(s, delta).Ok? ==> AddUm(s, delta).value == Supply(s.um + delta, s.delUm + moved, s.rateBps2))
  {
    hide DelUmDelta, Ceiling, RoundsOver;
    var n: nat := if delta < 0 then -delta else delta;
    if s.rateBps2 == 0 {
      NoRate(n, delta < 0);
    } else {
      DelUmDeltaExact(s.rateBps2, n);
    }
  }

  /** Revaluation comes out one short exactly when what truncation loses is more than the true product's fraction. */
  predicate FallsShort(rate: nat, delUm: nat) {
    delUm * rate % BPS_SQUARED * ONE < delUm * Lost(rate, BPS_SQUARED)
  }

  /** For all 128-bit rates and amounts, revaluation is the exact floor, except that it can fall one short, and a result
      that does not fit is a failed `expect`. */
  lemma UnbondedExact(rate: nat, delUm: nat)
    requires rate < ONE && delUm < ONE
    ensures FallsShort(rate, delUm) ==> delUm * rate / BPS_SQUARED > 0
    ensures var worth := delUm * rate / BPS_SQUARED - if FallsShort(rate, delUm) then 1 else 0;
            UnbondedAmount(rate, delUm) == if worth < ONE then Ok(worth) else Err(Panicked)
  {
    hide Ratio, Lost, Mul;
    var ratio := Ratio(rate, BPS_SQUARED);
    DivIsRatio(rate, BPS_SQUARED);
    RatioParts(rate, BPS_SQUARED);
    RatioFits(ratio, rate);
    MulInt(delUm, Fixed(ratio));
    MulByRatio(delUm, rate, BPS_SQUARED);
    Products(delUm, delUm, ratio, ratio);
    FitsWhole(delUm * ratio);
  }

  /** A raw value fits exactly when its whole part does, and then rounds down to that. */
  lemma FitsWhole(raw: nat)
    ensures Checked(raw) == if raw / ONE < ONE then Ok(Fixed(raw)) else Err(Overflow)
    ensures raw / ONE < ONE ==> ToInt(RoundDown(Fixed(raw)), ONE) == Ok(raw / ONE)
  {
    DivBounds(raw, ONE);
  }

  /** With a 64-bit amount, only whole products fall short: those of which truncation loses anything. */
  lemma ShortIsWhole(rate: nat, delUm: nat)
    requires delUm < U64
    ensures FallsShort(rate, delUm) <==> delUm * rate % BPS_SQUARED == 0 && delUm * Lost(rate, BPS_SQUARED) > 0
  {
    RatioParts(rate, BPS_SQUARED);
    var w := delUm * rate % BPS_SQUARED;
    hide Lost;
    LossBelow(delUm, Lost(rate, BPS_SQUARED));
    if w > 0 { MulLe(1, w, ONE); }
  }

  lemma LossBelow(delUm: nat, lost: nat)
    requires delUm < U64 && lost < BPS_SQUARED
    ensures 0 <= delUm * lost < ONE
  {
    MulLe(delUm, U64, lost);
  }

  /** When a revaluation succeeds, panics or fails, and what it leaves. */
  lemma ChangeRateExact(s: Supply, rate: nat)
    requires s.Valid() && rate < ONE
    ensures var worth := s.delUm * rate / BPS_SQUARED - if FallsShort(rate, s.delUm) then 1 else 0;
            && worth >= 0
            && (ChangeRate(s, rate) == Err(Panicked) <==> worth >= ONE)
            && (ChangeRate(s, rate).Ok? <==> worth < U64 && rate < U64)
            && (ChangeRate(s, rate).Ok? ==> ChangeRate(s, rate).value == Supply(worth, s.delUm, rate))
  {
    UnbondedExact(rate, s.delUm);
    hide UnbondedAmount, FallsShort;
    Products(s.delUm, s.delUm, rate, rate);
    DivBounds(s.delUm * rate, BPS_SQUARED);
  }

  /** A 128-bit rate can fail the `expect`. */
  lemma RevaluePanics()
    ensures ChangeRate(Supply(0, 2 * BPS_SQUARED, 1), ONE - 1) == Err(Panicked)
  {
    var s := Supply(0, 2 * BPS_SQUARED, 1);
    ChangeRateExact(s, ONE - 1);
    hide ChangeRate, FallsShort;
    DivUnique(s.delUm * (ONE - 1), BPS_SQUARED, 2 * (ONE - 1));
  }

  // ---------- Delegation and its native tokens ----------

  /** How much the delegation tokens, at the current rate, exceed the native tokens, in units of the rate's scale. */
  function Excess(s: Supply): int {
    s.delUm * s.rateBps2 - s.um * BPS_SQUARED
  }

  /** Adding and removing never increases the excess: rounding goes against the delegation tokens both ways. At rate
      zero the delegation tokens claim nothing. */
  lemma AddUmExcess(s: Supply, delta: int)
    requires s.Valid() && -(I64 as int) <= delta < I64 && AddUm(s, delta).Ok?
    ensures AddUm(s, delta).value.Valid()
    ensures Excess(AddUm(s, delta).value) <= if s.rateBps2 == 0 then 0 else Excess(s)
  {
    var n: nat := if delta < 0 then -delta else delta;
    if s.rateBps2 == 0 {
      NoRate(n, delta < 0);
    } else {
      AddUmExact(s, delta);
      hide AddUm;
      var moved := TokensMoved(s.rateBps2, delta);
      DivBounds(n * BPS_SQUARED, s.rateBps2);
      MovedWorth(s.rateBps2, delta);
      Distribute(s.delUm, moved, s.rateBps2);
    }
  }

  lemma NoRate(delta: nat, negate: bool)
    ensures DelUmDelta(0, delta, negate) == Ok(0)
  {
    DivIsRatio(0, BPS_SQUARED);
  }

  /** What moves is worth no more than it is paid with. */
  lemma MovedWorth(rate: nat, delta: int)
    requires rate > 0
    ensures TokensMoved(rate, delta) * rate <= delta * BPS_SQUARED
  {
    var n: nat := if delta < 0 then -delta else delta;
    hide RoundsOver;
    DivBounds(n * BPS_SQUARED, rate);
    if delta < 0 {
      var up := Ceiling(n * BPS_SQUARED, rate);
      assert up * rate >= n * BPS_SQUARED by { Distribute(n * BPS_SQUARED / rate, 1, rate); }
      MulLe(up, -TokensMoved(rate, delta), rate);
      assert TokensMoved(rate, delta) * rate == -((-TokensMoved(rate, delta)) * rate);
    }
  }

  /** A revaluation leaves less than one native token of excess, or exactly one when it falls short. */
  lemma ChangeRateExcess(s: Supply, rate: nat)
    requires s.Valid() && rate < ONE && ChangeRate(s, rate).Ok?
    ensures ChangeRate(s, rate).value.Valid()
    ensures Excess(ChangeRate(s, rate).value) <= BPS_SQUARED
    ensures Excess(ChangeRate(s, rate).value) == BPS_SQUARED <==> FallsShort(rate, s.delUm)
  {
    ChangeRateExact(s, rate);
    ShortIsWhole(rate, s.delUm);
    hide ChangeRate, FallsShort;
    DivBounds(s.delUm * rate, BPS_SQUARED);
  }

  // ---------- Every reachable state ----------

  datatype Op = Add(delta: int) | Revalue(rate: nat)
  {
    predicate Valid() {
      match this
      case Add(delta) => -(I64 as int) <= delta < I64
      case Revalue(rate) => rate < ONE
    }
  }

  function ApplyOp(s: Supply, op: Op): Result<Supply, Failure> {
    match op
    case Add(delta) => AddUm(s, delta)
    case Revalue(rate) => ChangeRate(s, rate)
  }

  /** The supply after some operations, starting from nothing. An operation that fails changes nothing. */
  function After(ops: seq<Op>): Supply {
    if ops == [] then DEFAULT
    else
      var s := After(ops[..|ops| - 1]);
      var r := ApplyOp(s, ops[|ops| - 1]);
      if r.Ok? then r.value else s
  }

  lemma {:induction false} AfterExcess(ops: seq<Op>)
    requires forall op <- ops :: op.Valid()
    ensures After(ops).Valid() && Excess(After(ops)) <= BPS_SQUARED
    ensures (forall op <- ops :: op.Add?) ==> Excess(After(ops)) <= 0
    decreases |ops|
  {
    hide Excess, AddUm, ChangeRate;
    if ops == [] {
      assert Excess(DEFAULT) == 0 by { NothingDelegated(); }
    } else {
      var init, op := ops[..|ops| - 1], ops[|ops| - 1];
      assert op in ops && op.Valid();
      AfterExcess(init);
      var s := After(init);
      if ApplyOp(s, op).Ok? {
        match op
        case Add(delta) => AddUmExcess(s, delta);
        case Revalue(rate) => ChangeRateExcess(s, rate);
      }
    }
  }

  lemma NothingDelegated()
    ensures Excess(DEFAULT) == 0
  {
  }

  /** The delegation tokens never claim more than one native token beyond what is there, and claim no more than what
      is there while the rate has not changed. */
  lemma NeverOverClaims(ops: seq<Op>)
    requires forall op <- ops :: op.Valid()
    ensures After(ops).delUm * After(ops).rateBps2 <= (After(ops).um + 1) * BPS_SQUARED
    ensures (forall op <- ops :: op.Add?) ==> After(ops).delUm * After(ops).rateBps2 <= After(ops).um * BPS_SQUARED
  {
    AfterExcess(ops);
    hide After;
  }

  /** The bound is attained: the strict one fails after delegating at the default rate and revaluing at three. */
  lemma BoundAttained()
    ensures var s := After([Add(BPS_SQUARED), Revalue(3)]);
            s == Supply(2, BPS_SQUARED, 3) && s.delUm * s.rateBps2 == (s.um + 1) * BPS_SQUARED
  {
    hide AddUm, ChangeRate;
    AddOne();
    RevalueAtThree();
    AfterMore([], Add(BPS_SQUARED));
    AfterMore([Add(BPS_SQUARED)], Revalue(3));
    assert [] + [Add(BPS_SQUARED)] == [Add(BPS_SQUARED)];
    assert [Add(BPS_SQUARED)] + [Revalue(3)] == [Add(BPS_SQUARED), Revalue(3)];
    assert After([]) == DEFAULT;
  }

  lemma AfterMore(ops: seq<Op>, op: Op)
    ensures After(ops + [op]) == if ApplyOp(After(ops), op).Ok? then ApplyOp(After(ops), op).value else After(ops)
  {
    assert (ops + [op])[..|ops|] == ops;
  }

  lemma AddOne()
    ensures AddUm(DEFAULT, BPS_SQUARED) == Ok(Supply(BPS_SQUARED, BPS_SQUARED, BPS_SQUARED))
  {
    hide AddUm;
    AddUmExact(DEFAULT, BPS_SQUARED);
    DivUnique(BPS_SQUARED * BPS_SQUARED, BPS_SQUARED, BPS_SQUARED);
  }

  lemma RevalueAtThree()
    ensures ChangeRate(Supply(BPS_SQUARED, BPS_SQUARED, BPS_SQUARED), 3) == Ok(Supply(2, BPS_SQUARED, 3))
  {
    ChangeRateExact(Supply(BPS_SQUARED, BPS_SQUARED, BPS_SQUARED), 3);
    ShortIsWhole(3, BPS_SQUARED);
    hide ChangeRate, FallsShort;
  }

  /** Exactly when the strict bound holds just after a revaluation; afterwards adding and removing keeps it. */
  lemma StrictBound(s: Supply, rate: nat, delta: int)
    requires s.Valid() && rate < ONE && ChangeRate(s, rate).Ok? && -(I64 as int) <= delta < I64
    ensures var r := ChangeRate(s, rate).value;
            r.delUm * r.rateBps2 < (r.um + 1) * BPS_SQUARED <==> !FallsShort(rate, s.delUm)
    ensures s.delUm * s.rateBps2 < (s.um + 1) * BPS_SQUARED && AddUm(s, delta).Ok? ==>
              var t := AddUm(s, delta).value;
              t.delUm * t.rateBps2 < (t.um + 1) * BPS_SQUARED
  {
    ChangeRateExcess(s, rate);
    hide AddUm, ChangeRate, FallsShort;
    if AddUm(s, delta).Ok? { AddUmExcess(s, delta); }
  }
}
