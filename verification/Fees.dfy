/**
  The paper fee estimate of fees.py over exact reals: a trade fee rounded up to a centicent,
  then the rounding of the balance to the account's precision.
*/
module Fees {
  import opened Common

  datatype Side = Buy | Sell

  datatype FeeError = InvalidFeeInputs

  const CENTICENT: real := 0.0001
  const CENT: real := 0.01

  function Ceiling(x: real): int { -((-x).Floor) }

  function RawFee(priceCents: real, contracts: real, multiplier: real): real {
    var p := priceCents / 100.0;
    multiplier * 0.07 * contracts * p * (1.0 - p)
  }

  /** `trade_fee_usd`: the raw fee quantized up to a centicent. */
  function TradeFee(priceCents: real, contracts: real, multiplier: real): real {
    Ceiling(RawFee(priceCents, contracts, multiplier) * 10000.0) as real / 10000.0
  }

  predicate ValidPrecision(precision: real) { precision == CENT || precision == CENTICENT }

  predicate ValidFeeInputs(priceCents: real, contracts: real, precision: real) {
    0.0 <= contracts && 0.0 <= priceCents <= 100.0 && ValidPrecision(precision)
  }

  /** What the fill itself moves the balance by, before fees. */
  function Revenue(priceCents: real, contracts: real, side: Side): real {
    priceCents / 100.0 * contracts * (if side.Buy? then -1.0 else 1.0)
  }

  function FlooredTo(amount: real, precision: real): real
    requires ValidPrecision(precision)
  {
    (amount / precision).Floor as real * precision
  }

  /** The fee on inputs already found valid. */
  function NetFee(priceCents: real, contracts: real, multiplier: real, side: Side, precision: real): real
    requires ValidPrecision(precision)
  {
    var tradeFee := TradeFee(priceCents, contracts, multiplier);
    var balanceChange := Revenue(priceCents, contracts, side) - tradeFee;
    tradeFee + (balanceChange - FlooredTo(balanceChange, precision))
  }

  function FeeUsd(priceCents: real, contracts: real, multiplier: real, side: Side,
                  precision: real): Result<real, FeeError>
  {
    if !ValidFeeInputs(priceCents, contracts, precision) then Err(InvalidFeeInputs)
    else Ok(NetFee(priceCents, contracts, multiplier, side, precision))
  }

  /** Net P&L of a buy at the ask sold at the take-profit, both under 99 cents. */
  function ProjectedScalpPnl(askCents: real, takeProfit: real, contracts: real, precision: real): real
    requires ValidPrecision(precision)
  {
    var entry := Min(99.0, askCents);
    var exit := Min(99.0, entry + takeProfit);
    (exit - entry) * contracts / 100.0
    - NetFee(entry, contracts, 1.0, Buy, precision)
    - NetFee(exit, contracts, 1.0, Sell, precision)
  }

  // ---------- What the fee is ----------

  /** Whole multiples of the account's precision. */
  ghost predicate WholeMultiple(amount: real, precision: real)
    requires ValidPrecision(precision)
  {
    (amount / precision).Floor as real * precision == amount
  }

  /** Charging `fee` covers the trade fee and leaves the balance changed by a whole multiple. */
  ghost predicate Chargeable(fee: real, priceCents: real, contracts: real, multiplier: real, side: Side,
                             precision: real)
    requires ValidPrecision(precision)
  {
    fee >= TradeFee(priceCents, contracts, multiplier)
    && WholeMultiple(Revenue(priceCents, contracts, side) - fee, precision)
  }

  lemma WholeMultipleSum(a: real, b: real, precision: real)
    requires ValidPrecision(precision) && WholeMultiple(a, precision) && WholeMultiple(b, precision)
    ensures WholeMultiple(a + b, precision)
  {
    var i, j := (a / precision).Floor, (b / precision).Floor;
    assert a + b == (i + j) as real * precision;
  }

  lemma FloorBounds(amount: real, precision: real)
    requires ValidPrecision(precision)
    ensures WholeMultiple(FlooredTo(amount, precision), precision)
    ensures FlooredTo(amount, precision) <= amount < FlooredTo(amount, precision) + precision
  {
    var k := (amount / precision).Floor;
    assert amount == (amount / precision) * precision;
  }

  lemma GreatestMultiple(multiple: real, amount: real, precision: real)
    requires ValidPrecision(precision) && WholeMultiple(multiple, precision) && multiple <= amount
    ensures multiple <= FlooredTo(amount, precision)
  {
    var i, k := (multiple / precision).Floor, (amount / precision).Floor;
    assert multiple / precision <= amount / precision;
    assert i <= k;
  }

  /** The fee is the least amount at or above the trade fee that makes the balance change a whole multiple. */
  lemma FeeIsLeast(priceCents: real, contracts: real, multiplier: real, side: Side, precision: real)
    requires ValidPrecision(precision)
    ensures var fee := NetFee(priceCents, contracts, multiplier, side, precision);
            && Chargeable(fee, priceCents, contracts, multiplier, side, precision)
            && forall f :: Chargeable(f, priceCents, contracts, multiplier, side, precision) ==> fee <= f
  {
    var tradeFee := TradeFee(priceCents, contracts, multiplier);
    var revenue := Revenue(priceCents, contracts, side);
    var fee := NetFee(priceCents, contracts, multiplier, side, precision);
    hide TradeFee, Revenue, FlooredTo, WholeMultiple;
    FloorBounds(revenue - tradeFee, precision);
    assert revenue - fee == FlooredTo(revenue - tradeFee, precision);
    forall f | Chargeable(f, priceCents, contracts, multiplier, side, precision) ensures fee <= f {
      GreatestMultiple(revenue - f, revenue - tradeFee, precision);
    }
  }

  /** It exceeds the raw fee by less than one centicent and one unit of precision. */
  lemma FeeBounds(priceCents: real, contracts: real, multiplier: real, side: Side, precision: real)
    requires ValidPrecision(precision)
    ensures var p := priceCents / 100.0;
            var raw := multiplier * 0.07 * contracts * p * (1.0 - p);
            raw <= NetFee(priceCents, contracts, multiplier, side, precision) < raw + 0.0001 + precision
  {
    var raw := RawFee(priceCents, contracts, multiplier);
    var tradeFee := TradeFee(priceCents, contracts, multiplier);
    assert raw <= tradeFee < raw + CENTICENT;
    FloorBounds(Revenue(priceCents, contracts, side) - tradeFee, precision);
  }

  // ---------- The fee in its own terms ----------

  ghost predicate Whole(x: real) { x.Floor as real == x }

  /** Seven percent of contracts times price times its complement, in dollars, up to the next centicent. */
  ghost predicate TradeFeeIs(priceCents: real, contracts: real, multiplier: real, tradeFee: real) {
    var raw := multiplier * 0.07 * contracts * (priceCents / 100.0) * ((100.0 - priceCents) / 100.0);
    Whole(tradeFee * 10000.0) && raw <= tradeFee < raw + 0.0001
  }

  /** With this fee the fill moves the balance by a whole number of cents or of centicents. */
  ghost predicate Balances(priceCents: real, contracts: real, side: Side, precision: real, fee: real) {
    var moved := (if side.Buy? then -(priceCents * contracts / 100.0) else priceCents * contracts / 100.0) - fee;
    if precision == 0.01 then Whole(moved * 100.0) else Whole(moved * 10000.0)
  }

  lemma RawFeeIs(priceCents: real, contracts: real, multiplier: real)
    ensures RawFee(priceCents, contracts, multiplier)
         == multiplier * 0.07 * contracts * (priceCents / 100.0) * ((100.0 - priceCents) / 100.0)
  {
    assert 1.0 - priceCents / 100.0 == (100.0 - priceCents) / 100.0;
  }

  lemma OneTradeFee(priceCents: real, contracts: real, multiplier: real, tradeFee: real)
    ensures TradeFeeIs(priceCents, contracts, multiplier, tradeFee)
       <==> tradeFee == TradeFee(priceCents, contracts, multiplier)
  {
    RawFeeIs(priceCents, contracts, multiplier);
    var raw := RawFee(priceCents, contracts, multiplier);
    hide RawFee;
    var x := raw * 10000.0;
    assert x <= Ceiling(x) as real < x + 1.0;
    if TradeFeeIs(priceCents, contracts, multiplier, tradeFee) {
      assert Ceiling(x) == (tradeFee * 10000.0).Floor;
    }
  }

  lemma BalancesIs(priceCents: real, contracts: real, side: Side, precision: real, fee: real)
    requires ValidPrecision(precision)
    ensures Balances(priceCents, contracts, side, precision, fee)
       <==> WholeMultiple(Revenue(priceCents, contracts, side) - fee, precision)
  {
    var gross := priceCents / 100.0 * contracts;
    assert gross == priceCents * contracts / 100.0;
    assert Revenue(priceCents, contracts, side) == if side.Buy? then -gross else gross;
    var moved := (if side.Buy? then -gross else gross) - fee;
    assert precision == 0.01 ==> moved / precision == moved * 100.0;
    assert precision == 0.0001 ==> moved / precision == moved * 10000.0;
  }

  /**
    The fee is refused exactly on a negative size, a price outside 0 to 100 cents or a precision other than a cent or
    a centicent. Otherwise it is the least amount not below the trade fee that balances the account.
  */
  lemma FeeUsdExactly(priceCents: real, contracts: real, multiplier: real, side: Side, precision: real, tradeFee: real)
    requires TradeFeeIs(priceCents, contracts, multiplier, tradeFee)
    ensures var r := FeeUsd(priceCents, contracts, multiplier, side, precision);
      if contracts < 0.0 || priceCents < 0.0 || priceCents > 100.0 || precision !in {0.01, 0.0001}
      then r == Err(InvalidFeeInputs)
      else
        && r.Ok? && r.value >= tradeFee && Balances(priceCents, contracts, side, precision, r.value)
        && forall f :: f >= tradeFee && Balances(priceCents, contracts, side, precision, f) ==> r.value <= f
  {
    OneTradeFee(priceCents, contracts, multiplier, tradeFee);
    if precision in {0.01, 0.0001} {
      var fee := NetFee(priceCents, contracts, multiplier, side, precision);
      hide TradeFeeIs, TradeFee, Revenue, WholeMultiple, Balances, NetFee;
      FeeIsLeast(priceCents, contracts, multiplier, side, precision);
      BalancesIs(priceCents, contracts, side, precision, fee);
      forall f | f >= tradeFee && Balances(priceCents, contracts, side, precision, f) ensures fee <= f {
        BalancesIs(priceCents, contracts, side, precision, f);
        assert Chargeable(f, priceCents, contracts, multiplier, side, precision);
      }
    }
  }

  /** There is always such a trade fee. */
  lemma TradeFeeExists(priceCents: real, contracts: real, multiplier: real)
    ensures TradeFeeIs(priceCents, contracts, multiplier, TradeFee(priceCents, contracts, multiplier))
  {
    OneTradeFee(priceCents, contracts, multiplier, TradeFee(priceCents, contracts, multiplier));
  }

  // ---------- Splitting a fill ----------

  function SumOfFees(priceCents: real, parts: seq<real>, multiplier: real, side: Side, precision: real): real
    requires ValidPrecision(precision)
  {
    if parts == [] then 0.0
    else NetFee(priceCents, parts[0], multiplier, side, precision)
         + SumOfFees(priceCents, parts[1..], multiplier, side, precision)
  }

  lemma RawFeeAdds(priceCents: real, a: real, b: real, multiplier: real)
    ensures RawFee(priceCents, a + b, multiplier)
         == RawFee(priceCents, a, multiplier) + RawFee(priceCents, b, multiplier)
  {
    var p := priceCents / 100.0;
    var rate := multiplier * 0.07;
    assert rate * (a + b) == rate * a + rate * b;
    assert (rate * a + rate * b) * p == rate * a * p + rate * b * p;
    assert (rate * a * p + rate * b * p) * (1.0 - p) == rate * a * p * (1.0 - p) + rate * b * p * (1.0 - p);
  }

  lemma CeilingSubadditive(x: real, y: real)
    ensures Ceiling(x + y) <= Ceiling(x) + Ceiling(y)
  {
  }

  lemma SplitInTwo(priceCents: real, a: real, b: real, multiplier: real, side: Side, precision: real)
    requires ValidPrecision(precision)
    ensures NetFee(priceCents, a + b, multiplier, side, precision)
         <= NetFee(priceCents, a, multiplier, side, precision) + NetFee(priceCents, b, multiplier, side, precision)
  {
    var fa := NetFee(priceCents, a, multiplier, side, precision);
    var fb := NetFee(priceCents, b, multiplier, side, precision);
    FeeIsLeast(priceCents, a, multiplier, side, precision);
    FeeIsLeast(priceCents, b, multiplier, side, precision);
    RawFeeAdds(priceCents, a, b, multiplier);
    CeilingSubadditive(RawFee(priceCents, a, multiplier) * 10000.0, RawFee(priceCents, b, multiplier) * 10000.0);
    assert Revenue(priceCents, a + b, side) == Revenue(priceCents, a, side) + Revenue(priceCents, b, side);
    WholeMultipleSum(Revenue(priceCents, a, side) - fa, Revenue(priceCents, b, side) - fb, precision);
    FeeIsLeast(priceCents, a + b, multiplier, side, precision);
    assert Chargeable(fa + fb, priceCents, a + b, multiplier, side, precision);
  }

  /** Splitting a fill into parts at one price and side never lowers the total fee. */
  lemma {:induction false} SplittingNeverPays(priceCents: real, parts: seq<real>, multiplier: real, side: Side,
                                              precision: real)
    requires ValidPrecision(precision) && parts != []
    ensures NetFee(priceCents, Sum(parts), multiplier, side, precision)
         <= SumOfFees(priceCents, parts, multiplier, side, precision)
  {
    if |parts| == 1 {
      assert Sum(parts[1..]) == 0.0 && Sum(parts) == parts[0];
    } else {
      SplittingNeverPays(priceCents, parts[1..], multiplier, side, precision);
      SplitInTwo(priceCents, parts[0], Sum(parts[1..]), multiplier, side, precision);
    }
  }
}
